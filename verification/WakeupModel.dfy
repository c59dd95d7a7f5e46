/** The task queue of an event loop and its wakeup counter, as interleaved steps of the loop's own thread
    and of other threads. */
module WakeupModel {

  type TaskId = nat

  /** A task of another thread, a callback for a ready descriptor, or the callback that empties the
      wakeup counter. */
  datatype Task = Foreign(id: TaskId) | Local(id: TaskId) | Drain

  datatype Phase = Top | Running | Waiting | Dispatching

  /** `inflight` are the tasks whose thread has pushed them but not yet called Wakeup; `todo` are callbacks
      that epoll_wait has reported and that are still to be queued; `pushed` logs every task queued. */
  datatype Loop = Loop(
    phase: Phase, pending: seq<Task>, batch: seq<Task>, executed: seq<Task>, pushed: seq<Task>,
    todo: seq<Task>, counter: nat, inflight: set<TaskId>)

  datatype Step =
    | Push(id: TaskId)
    | Wake(id: TaskId)
    | Swap
    | Exec
    | Wait
    | Return(todo: seq<Task>)
    | Dispatch
    | Again

  /** What a Wakeup writes: eight bytes, the first of them the letter 'a', read as one number. */
  const LETTER_A: nat := 97

  const INIT: Loop := Loop(Top, [], [], [], [], [], 0, {})

  predicate Enabled(s: Loop, step: Step) {
    match step
    case Push(id) => Foreign(id) !in s.pushed
    case Wake(id) => id in s.inflight
    case Swap => s.phase == Top
    case Exec => s.phase == Running && s.batch != []
    case Wait => s.phase == Running && s.batch == []
    case Return(todo) =>       // the wakeup descriptor is reported only while its counter is positive
      && s.phase == Waiting
      && (forall t <- todo :: !t.Foreign?)
      && (Drain in todo ==> s.counter > 0)
    case Dispatch => s.phase == Dispatching && s.todo != []
    case Again => s.phase == Dispatching && s.todo == []
  }

  function Queue(s: Loop, t: Task): Loop {
    s.(pending := s.pending + [t], pushed := s.pushed + [t])
  }

  function Next(s: Loop, step: Step): Loop
    requires Enabled(s, step)
  {
    match step
    case Push(id) => Queue(s, Foreign(id)).(inflight := s.inflight + {id})
    case Wake(id) => s.(counter := s.counter + LETTER_A, inflight := s.inflight - {id})
    case Swap => s.(phase := Running, batch := s.pending, pending := [])
    case Exec =>
      s.(batch := s.batch[1..], executed := s.executed + [s.batch[0]],
         counter := if s.batch[0] == Drain then 0 else s.counter)
    case Wait => s.(phase := Waiting)
    case Return(todo) => s.(phase := Dispatching, todo := todo)
    case Dispatch => Queue(s, s.todo[0]).(todo := s.todo[1..])
    case Again => s.(phase := Top)
  }

  /** What crosses between threads: a push appends its task and says that a Wakeup is to follow; the Wakeup
      writes 97 and no task; the loop's own callbacks are queued behind what is there. */
  lemma {:induction false} StepsAcrossThreads(s: Loop, id: TaskId)
    ensures Enabled(s, Push(id)) ==>
              Next(s, Push(id)) == s.(pending := s.pending + [Foreign(id)], pushed := s.pushed + [Foreign(id)],
                                      inflight := s.inflight + {id})
    ensures Enabled(s, Wake(id)) ==>
              Next(s, Wake(id)) == s.(counter := s.counter + 97, inflight := s.inflight - {id})
    ensures Enabled(s, Dispatch) ==>
              Next(s, Dispatch) == s.(pending := s.pending + [s.todo[0]], pushed := s.pushed + [s.todo[0]],
                                      todo := s.todo[1..])
  {
  }

  ghost predicate Legal(s: Loop, steps: seq<Step>)
    decreases |steps|
  {
    steps != [] ==> Enabled(s, steps[0]) && Legal(Next(s, steps[0]), steps[1..])
  }

  ghost function Run(s: Loop, steps: seq<Step>): Loop
    requires Legal(s, steps)
    decreases |steps|
  {
    if steps == [] then s else Run(Next(s, steps[0]), steps[1..])
  }

  // ---------------------------------------------------------------- no task is lost or repeated

  ghost predicate Conserves(s: Loop) {
    && s.executed + s.batch + s.pending == s.pushed
    && (s.phase != Running ==> s.batch == [])
    && (forall i, j :: 0 <= i < j < |s.pushed| && s.pushed[i].Foreign? ==> s.pushed[i] != s.pushed[j])
    && (forall t <- s.todo :: !t.Foreign?)
    && (s.phase != Dispatching ==> s.todo == [])
  }

  lemma {:induction false} NextConserves(s: Loop, step: Step)
    requires Conserves(s) && Enabled(s, step)
    ensures Conserves(Next(s, step))
  {
    match step
    case Push(id) =>
      assert s.executed + s.batch + (s.pending + [Foreign(id)]) == s.executed + s.batch + s.pending + [Foreign(id)];
    case Wake(_) =>
    case Swap => assert s.executed + s.pending + [] == s.executed + s.batch + s.pending;
    case Exec => assert s.executed + [s.batch[0]] + s.batch[1..] == s.executed + s.batch;
    case Wait =>
    case Return(_) =>
    case Dispatch =>
      assert s.executed + s.batch + (s.pending + [s.todo[0]]) == s.executed + s.batch + s.pending + [s.todo[0]];
    case Again =>
  }

  /** In every interleaving the tasks run in the order in which they were queued, and a task of another
      thread runs at most once. */
  lemma {:induction false} TasksRunInOrder(s: Loop, steps: seq<Step>)
    requires Conserves(s) && Legal(s, steps)
    ensures Conserves(Run(s, steps))
    decreases |steps|
  {
    if steps != [] {
      NextConserves(s, steps[0]);
      TasksRunInOrder(Next(s, steps[0]), steps[1..]);
    }
  }

  // ---------------------------------------------------------------- wakeups

  /** A Wakeup that comes in time: its task was queued before the last swap, or no callback that empties
      the counter is left in the batch being run. */
  predicate InTime(s: Loop, step: Step) {
    step.Wake? ==> Foreign(step.id) !in s.pending || Drain !in s.batch
  }

  ghost predicate AllInTime(s: Loop, steps: seq<Step>)
    requires Legal(s, steps)
    decreases |steps|
  {
    steps != [] ==> InTime(s, steps[0]) && AllInTime(Next(s, steps[0]), steps[1..])
  }

  /** The loop stands at epoll_wait with tasks queued, and nothing is on its way to wake it. */
  predicate Stuck(s: Loop) {
    s.phase == Waiting && s.pending != [] && s.counter == 0 && s.inflight == {}
  }

  ghost predicate Awake(s: Loop) {
    && (s.phase == Running || s.phase == Waiting ==> forall t <- s.pending :: t.Foreign?)
    && (Drain in s.batch ==> forall t <- s.pending :: t.Foreign? ==> t.id in s.inflight)
    && ((exists t :: t in s.pending && t.Foreign?) ==>
          s.counter > 0 || exists t :: t in s.pending && t.Foreign? && t.id in s.inflight)
  }

  lemma {:induction false} NextStaysAwake(s: Loop, step: Step)
    requires Awake(s) && Conserves(s) && Enabled(s, step) && InTime(s, step)
    ensures Awake(Next(s, step))
  {
    var n := Next(s, step);
    match step
    case Push(id) =>
      assert Foreign(id) in n.pending;
    case Wake(id) =>
    case Swap =>
    case Exec =>
      assert s.batch == [s.batch[0]] + s.batch[1..];
      if s.batch[0] == Drain && exists t :: t in s.pending && t.Foreign? {
        var t :| t in s.pending && t.Foreign?;
        assert t.id in n.inflight;
      }
    case Wait =>
    case Return(_) =>
    case Dispatch =>
      assert s.todo[0] in s.todo && !s.todo[0].Foreign?;
      if t :| t in s.pending && t.Foreign? {
        assert t in n.pending;
      }
      if t :| t in s.pending && t.Foreign? && t.id in s.inflight {
        assert t in n.pending;
      }
    case Again =>
  }

  /** No wakeup is lost as long as every Wakeup comes in time: whenever the loop stands at epoll_wait with
      tasks queued, the counter is positive or a thread is between its push and its Wakeup. */
  lemma {:induction false} TimelyWakeupsSuffice(s: Loop, steps: seq<Step>)
    requires Awake(s) && Conserves(s) && Legal(s, steps) && AllInTime(s, steps)
    ensures Awake(Run(s, steps)) && !Stuck(Run(s, steps))
    decreases |steps|
  {
    if steps != [] {
      NextStaysAwake(s, steps[0]);
      NextConserves(s, steps[0]);
      TimelyWakeupsSuffice(Next(s, steps[0]), steps[1..]);
    } else if s.phase == Waiting && s.pending != [] {
      assert s.pending[0] in s.pending;
    }
  }

  lemma {:induction false} RunConcat(s: Loop, a: seq<Step>, b: seq<Step>)
    requires Legal(s, a) && Legal(Run(s, a), b)
    ensures Legal(s, a + b) && Run(s, a + b) == Run(Run(s, a), b)
    decreases |a|
  {
    if a == [] {
      assert a + b == b;
    } else {
      assert (a + b)[1..] == a[1..] + b;
      RunConcat(Next(s, a[0]), a[1..], b);
    }
  }

  lemma {:induction false} RunOne(s: Loop, step: Step)
    requires Enabled(s, step)
    ensures Legal(s, [step]) && Run(s, [step]) == Next(s, step)
  {
    assert [step][1..] == [];
  }

  /** Every thread that has pushed a task gets to call Wakeup. */
  lemma {:induction false} WakeRest(s: Loop) returns (steps: seq<Step>)
    ensures Legal(s, steps)
    ensures Run(s, steps).inflight == {} && Run(s, steps) == s.(inflight := {}, counter := Run(s, steps).counter)
    decreases s.inflight
  {
    if s.inflight == {} {
      steps := [];
    } else {
      var id :| id in s.inflight;
      var rest := WakeRest(Next(s, Wake(id)));
      steps := [Wake(id)] + rest;
      assert steps[1..] == rest;
    }
  }

  /** The loop finishes its batch. */
  lemma {:induction false} FinishBatch(s: Loop) returns (steps: seq<Step>)
    requires s.phase == Running
    ensures Legal(s, steps) && forall step <- steps :: step == Exec
    ensures var n := Run(s, steps);
            && n == s.(batch := [], executed := s.executed + s.batch, counter := n.counter)
            && n.counter == if Drain in s.batch then 0 else s.counter
    decreases |s.batch|
  {
    if s.batch == [] {
      steps := [];
      assert s.executed + [] == s.executed;
    } else {
      var rest := FinishBatch(Next(s, Exec));
      steps := [Exec] + rest;
      assert steps[1..] == rest;
      assert s.batch == [s.batch[0]] + s.batch[1..];
      assert s.executed + [s.batch[0]] + s.batch[1..] == s.executed + s.batch;
    }
  }

  /** Steps that the loop's own thread performs. */
  predicate OwnSteps(steps: seq<Step>) {
    forall step <- steps :: !step.Push? && !step.Wake?
  }

  /** A loop that waits with its counter positive gets on by itself: it can return for the wakeup descriptor
      alone, and then it runs all that was queued, in order, and empties the counter. */
  lemma {:induction false} AwakeLoopGetsOn(s: Loop) returns (steps: seq<Step>)
    requires s.phase == Waiting && Conserves(s) && s.counter > 0
    ensures Legal(s, steps) && OwnSteps(steps)
    ensures var n := Run(s, steps);
            n.executed == s.executed + s.pending + [Drain] && n.pending == [] && n.counter == 0
  {
    hide Legal, Run;
    var reported := Next(s, Return([Drain]));
    var queued := Next(reported, Dispatch);
    var top := Next(queued, Again);
    var running := Next(top, Swap);
    assert running.executed == s.executed && running.batch == s.pending + [Drain];
    steps := FinishBatch(running);
    assert s.executed + (s.pending + [Drain]) == s.executed + s.pending + [Drain];
    steps := RunFirst(top, Swap, steps);
    steps := RunFirst(queued, Again, steps);
    steps := RunFirst(reported, Dispatch, steps);
    steps := RunFirst(s, Return([Drain]), steps);
  }

  lemma {:induction false} RunFirst(s: Loop, step: Step, rest: seq<Step>) returns (steps: seq<Step>)
    requires Enabled(s, step) && Legal(Next(s, step), rest) && OwnSteps(rest) && !step.Push? && !step.Wake?
    ensures Legal(s, steps) && OwnSteps(steps) && Run(s, steps) == Run(Next(s, step), rest)
  {
    steps := [step] + rest;
    assert steps[1..] == rest;
  }

  /** What has run once the loop's batch, and the queue behind it if it has not been swapped yet, have. */
  ghost function DueNext(s: Loop): seq<Task> {
    s.executed + s.batch + if s.phase == Running then [] else s.pending
  }

  /** Whatever the other threads do meanwhile: once epoll_wait has returned and the loop waits again, every
      task that was queued before has run. */
  lemma {:induction false} NextTurnRunsQueued(s: Loop, steps: seq<Step>)
    requires Conserves(s) && Legal(s, steps) && s.phase != Waiting && Run(s, steps).phase == Waiting
    ensures DueNext(s) <= Run(s, steps).executed
    decreases |steps|
  {
    var n := Next(s, steps[0]);
    NextConserves(s, steps[0]);
    OwedIsKept(s, steps[0]);
    if n.phase == Waiting {
      ExecutedOnlyGrows(n, steps[1..]);
    } else {
      NextTurnRunsQueued(n, steps[1..]);
    }
  }

  lemma {:induction false} OwedIsKept(s: Loop, step: Step)
    requires Conserves(s) && Enabled(s, step) && s.phase != Waiting
    ensures var n := Next(s, step);
            if n.phase == Waiting then DueNext(s) <= n.executed else DueNext(s) <= DueNext(n)
  {
    var n := Next(s, step);
    match step
    case Push(id) =>
      assert s.executed + s.batch + (s.pending + [Foreign(id)]) == s.executed + s.batch + s.pending + [Foreign(id)];
    case Wake(_) =>
    case Swap => assert s.executed + s.pending + [] == s.executed + [] + s.pending;
    case Exec => assert s.executed + [s.batch[0]] + s.batch[1..] == s.executed + s.batch;
    case Wait =>
    case Dispatch =>
      assert s.executed + s.batch + (s.pending + [s.todo[0]]) == s.executed + s.batch + s.pending + [s.todo[0]];
    case Again =>
  }

  /** What has run stays so. */
  lemma {:induction false} ExecutedOnlyGrows(s: Loop, steps: seq<Step>)
    requires Legal(s, steps)
    ensures s.executed <= Run(s, steps).executed
    decreases |steps|
  {
    if steps != [] {
      ExecutedOnlyGrows(Next(s, steps[0]), steps[1..]);
    }
  }

  /** And they must come in time: after any Wakeup that does not, the other threads and the loop can
      reach a state where the loop stands at epoll_wait with that task queued and nothing to wake it. */
  lemma {:induction false} LateWakeupCanStrand(s: Loop, id: TaskId) returns (steps: seq<Step>)
    requires s.phase == Running && Enabled(s, Wake(id)) && !InTime(s, Wake(id))
    ensures Legal(s, [Wake(id)] + steps)
    ensures Stuck(Run(s, [Wake(id)] + steps)) && Foreign(id) in Run(s, [Wake(id)] + steps).pending
  {
    var woken := Next(s, Wake(id));
    RunOne(s, Wake(id));
    var wakes := WakeRest(woken);
    var quiet := Run(woken, wakes);
    var execs := FinishBatch(quiet);
    var done := Run(quiet, execs);
    RunOne(done, Wait);
    RunConcat(quiet, execs, [Wait]);
    RunConcat(woken, wakes, execs + [Wait]);
    steps := wakes + (execs + [Wait]);
    RunConcat(s, [Wake(id)], steps);
  }

  /** While epoll_wait does not return, nothing queued runs, whatever the other threads do. */
  lemma {:induction false} WaitingRunsNothing(s: Loop, steps: seq<Step>)
    requires s.phase == Waiting && Legal(s, steps) && forall step <- steps :: !step.Return?
    ensures var n := Run(s, steps);
            n.phase == Waiting && n.executed == s.executed && s.pending <= n.pending
    decreases |steps|
  {
    if steps != [] {
      assert steps[0] in steps && forall step <- steps[1..] :: step in steps;
      WaitingRunsNothing(Next(s, steps[0]), steps[1..]);
    }
  }

  /** In a stuck loop nothing queued runs until epoll_wait returns; and unless another thread pushes a task,
      it does not return for the wakeup descriptor, but only for another one or because it is interrupted. */
  lemma {:induction false} StuckNeedsOutsideHelp(s: Loop, steps: seq<Step>, todo: seq<Task>)
    requires Stuck(s) && Legal(s, steps) && forall step <- steps :: !step.Return?
    ensures var n := Run(s, steps);
            && n.phase == Waiting && n.executed == s.executed && s.pending <= n.pending
            && (Enabled(n, Return(todo)) && Drain in todo ==> exists step :: step in steps && step.Push?)
  {
    WaitingRunsNothing(s, steps);
    if steps != [] {
      assert steps[0] in steps && Enabled(s, steps[0]);
    }
  }

  lemma {:induction false} StartIsAwake()
    ensures Conserves(INIT) && Awake(INIT)
  {
  }

  lemma {:induction false} ExecutedAreDifferent(s: Loop)
    requires Conserves(s)
    ensures s.executed <= s.pushed
    ensures forall i, j :: 0 <= i < j < |s.executed| && s.executed[i].Foreign? ==> s.executed[i] != s.executed[j]
  {
    assert s.executed + (s.batch + s.pending) == s.pushed;
    forall i, j | 0 <= i < j < |s.executed| && s.executed[i].Foreign? ensures s.executed[i] != s.executed[j] {
      assert s.executed[i] == s.pushed[i] && s.executed[j] == s.pushed[j];
    }
  }

  /** From the start of the loop, in every interleaving: tasks run in the order in which they were queued,
      those of other threads at most once, and if every Wakeup comes in time the loop is never stuck. */
  lemma {:induction false} LoopFromTheStart(steps: seq<Step>)
    requires Legal(INIT, steps)
    ensures var s := Run(INIT, steps);
            && s.executed <= s.pushed && s.executed + s.batch + s.pending == s.pushed
            && (forall i, j :: 0 <= i < j < |s.executed| && s.executed[i].Foreign? ==> s.executed[i] != s.executed[j])
            && (AllInTime(INIT, steps) ==> !Stuck(s))
  {
    hide Stuck, Run, Awake;
    StartIsAwake();
    TasksRunInOrder(INIT, steps);
    ExecutedAreDifferent(Run(INIT, steps));
    hide Conserves;
    if AllInTime(INIT, steps) {
      TimelyWakeupsSuffice(INIT, steps);
    }
  }

  ghost predicate Reaches(s: Loop, t: Loop) {
    exists steps :: Legal(s, steps) && Run(s, steps) == t
  }

  lemma {:induction false} ReachesNext(s: Loop, t: Loop, step: Step)
    requires Reaches(s, t) && Enabled(t, step)
    ensures Reaches(s, Next(t, step))
  {
    var steps :| Legal(s, steps) && Run(s, steps) == t;
    RunOne(t, step);
    RunConcat(s, steps, [step]);
  }

  lemma {:induction false} ReachesOn(s: Loop, t: Loop, u: Loop)
    requires Reaches(s, t) && Reaches(t, u)
    ensures Reaches(s, u)
  {
    var first :| Legal(s, first) && Run(s, first) == t;
    var second :| Legal(t, second) && Run(t, second) == u;
    RunConcat(s, first, second);
  }

  lemma {:induction false} ReachesItself(s: Loop)
    ensures Reaches(s, s)
  {
    assert Legal(s, []) && Run(s, []) == s;
  }

  /** A late Wakeup does occur: a second task is pushed while the batch that empties the counter runs. */
  lemma {:induction false} LateWakeupHappens()
    ensures exists s :: Reaches(INIT, s) && s.phase == Running && Enabled(s, Wake(2)) && !InTime(s, Wake(2))
  {
    hide Reaches, Legal, Run;
    var f1, f2 := Foreign(1), Foreign(2);
    ReachesItself(INIT);
    ReachesNext(INIT, INIT, Push(1));
    var s1 := Loop(Top, [f1], [], [], [f1], [], 0, {1});
    ReachesNext(INIT, s1, Wake(1));
    var s2 := Loop(Top, [f1], [], [], [f1], [], LETTER_A, {});
    ReachesNext(INIT, s2, Swap);
    var s3 := Loop(Running, [], [f1], [], [f1], [], LETTER_A, {});
    ReachesNext(INIT, s3, Exec);
    var s4 := Loop(Running, [], [], [f1], [f1], [], LETTER_A, {});
    ReachesNext(INIT, s4, Wait);
    var s5 := Loop(Waiting, [], [], [f1], [f1], [], LETTER_A, {});
    DrainComesLate(s5);
  }

  lemma {:induction false} DrainComesLate(s: Loop)
    requires Reaches(INIT, s) && s == Loop(Waiting, [], [], [Foreign(1)], [Foreign(1)], [], LETTER_A, {})
    ensures exists t :: Reaches(INIT, t) && t.phase == Running && Enabled(t, Wake(2)) && !InTime(t, Wake(2))
  {
    hide Reaches, Legal, Run;
    var f1, f2 := Foreign(1), Foreign(2);
    ReachesNext(INIT, s, Return([Drain]));
    var s1 := Loop(Dispatching, [], [], [f1], [f1], [Drain], LETTER_A, {});
    ReachesNext(INIT, s1, Dispatch);
    var s2 := Loop(Dispatching, [Drain], [], [f1], [f1, Drain], [], LETTER_A, {});
    ReachesNext(INIT, s2, Again);
    var s3 := Loop(Top, [Drain], [], [f1], [f1, Drain], [], LETTER_A, {});
    ReachesNext(INIT, s3, Swap);
    var s4 := Loop(Running, [], [Drain], [f1], [f1, Drain], [], LETTER_A, {});
    ReachesNext(INIT, s4, Push(2));
    var s5 := Loop(Running, [f2], [Drain], [f1], [f1, Drain, f2], [], LETTER_A, {2});
    assert Next(s4, Push(2)) == s5;
  }
}
