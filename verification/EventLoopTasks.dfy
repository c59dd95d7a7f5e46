/** The task queue object of an event loop: queueing a task, and one swap-and-drain pass of the loop. */
module EventLoopTasks {
  import opened WakeupModel

  /** The wakeup counter once these tasks have run. */
  function Drained(tasks: seq<Task>, counter: nat): nat {
    if Drain in tasks then 0 else counter
  }

  lemma {:induction false} ExecFirst(start: Loop, batch: seq<Task>, executed: seq<Task>, pushed: seq<Task>,
                                     counter: nat)
    requires batch != [] && Reaches(start, Loop(Running, [], batch, executed, pushed, [], counter, {}))
    ensures Reaches(start, Loop(Running, [], batch[1..], executed + [batch[0]], pushed, [],
                                if batch[0] == Drain then 0 else counter, {}))
  {
    hide Reaches;
    ReachesNext(start, Loop(Running, [], batch, executed, pushed, [], counter, {}), Exec);
  }

  lemma {:induction false} FirstAndRest(batch: seq<Task>, executed: seq<Task>, counter: nat)
    requires batch != []
    ensures executed + [batch[0]] + batch[1..] == executed + batch
    ensures Drained(batch[1..], if batch[0] == Drain then 0 else counter) == Drained(batch, counter)
  {
    assert batch == [batch[0]] + batch[1..];
  }

  lemma {:induction false} NoneDrained(counter: nat)
    ensures Drained([], counter) == counter
  {
  }

  class LoopTasks {
    var pendingTasks: seq<Task>
    var counter: nat               // the wakeup descriptor
    ghost var executed: seq<Task>
    ghost var pushed: seq<Task>

    /** The state between passes, no thread being halfway through a push. */
    ghost function Now(): Loop
      reads this
    {
      Loop(Top, pendingTasks, [], executed, pushed, [], counter, {})
    }

    constructor ()
      ensures Now() == INIT
    {
      pendingTasks, counter, executed, pushed := [], 0, [], [];
    }

    method Wakeup()
      modifies this`counter
      ensures counter == old(counter) + LETTER_A
    {
      counter := counter + LETTER_A;
    }

    /** A task of another thread is pushed and then announced. */
    method AddTask(id: TaskId)
      requires Foreign(id) !in pushed
      modifies this
      ensures Now() == Next(Next(old(Now()), Push(id)), Wake(id))
    {
      pendingTasks := pendingTasks + [Foreign(id)];
      pushed := pushed + [Foreign(id)];
      Wakeup();
    }

    /** Swaps the queue out and runs what was in it, first to last. */
    method RunTasks()
      modifies this
      ensures Reaches(old(Now()), Now().(phase := Running))
      ensures pendingTasks == [] && executed == old(executed) + old(pendingTasks) && pushed == old(pushed)
      ensures counter == Drained(old(pendingTasks), old(counter))
    {
      hide Reaches, Drained;
      ghost var start := Now();
      var tmpTasks := pendingTasks;
      pendingTasks := [];
      ReachesItself(start);
      ReachesNext(start, start, Swap);
      while tmpTasks != []
        invariant pendingTasks == [] && pushed == old(pushed)
        invariant Reaches(start, Loop(Running, [], tmpTasks, executed, pushed, [], counter, {}))
        invariant executed + tmpTasks == old(executed) + old(pendingTasks)
        invariant Drained(tmpTasks, counter) == Drained(old(pendingTasks), old(counter))
        decreases |tmpTasks|
      {
        ExecFirst(start, tmpTasks, executed, pushed, counter);
        FirstAndRest(tmpTasks, executed, counter);
        var task := tmpTasks[0];
        tmpTasks := tmpTasks[1..];
        executed := executed + [task];
        if task == Drain {
          counter := 0;
        }
      }
      NoneDrained(counter);
    }

    /** Queues the callbacks of the descriptors that `epoll_wait` has reported. */
    method QueueReady(todo: seq<Task>)
      requires Enabled(Now().(phase := Waiting), Return(todo))
      modifies this`pendingTasks, this`pushed
      ensures Reaches(old(Now()).(phase := Waiting), Now())
      ensures pendingTasks == old(pendingTasks) + todo && pushed == old(pushed) + todo
    {
      hide Reaches;
      ghost var start := Now().(phase := Waiting);
      ReachesItself(start);
      ReachesNext(start, start, Return(todo));
      var k := 0;
      while k < |todo|
        invariant 0 <= k <= |todo|
        invariant pendingTasks == old(pendingTasks) + todo[..k] && pushed == old(pushed) + todo[..k]
        invariant Reaches(start, Now().(phase := Dispatching, todo := todo[k..]))
      {
        ReachesNext(start, Now().(phase := Dispatching, todo := todo[k..]), Dispatch);
        assert todo[k..][1..] == todo[k + 1..];
        pendingTasks := pendingTasks + [todo[k]];
        pushed := pushed + [todo[k]];
        k := k + 1;
      }
      ReachesNext(start, Now().(phase := Dispatching, todo := []), Again);
    }

    /** One turn of the loop with no other thread at work: the queue is run, and what becomes ready then
        is queued for the next turn. */
    method Turn(todo: seq<Task>)
      requires forall t <- todo :: !t.Foreign?
      requires Drain in todo ==> counter > 0 && Drain !in pendingTasks
      modifies this
      ensures Reaches(old(Now()), Now())
      ensures pendingTasks == todo && executed == old(executed) + old(pendingTasks)
    {
      hide Reaches;
      RunTasks();
      ghost var ran := Now().(phase := Running);
      ReachesNext(old(Now()), ran, Wait);
      QueueReady(todo);
      ReachesOn(old(Now()), ran.(phase := Waiting), Now());
    }
  }
}
