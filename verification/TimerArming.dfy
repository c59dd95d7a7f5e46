/** What a callback of the timer queues, how that arms the timer descriptor, over single ticks and over whole
    runs, and what cancelling an event does. */
module TimerArming {
  import opened Options
  import opened TimerModel

  // ---------------------------------------------------------------- what is queued

  function AddedIds(adds: seq<Adding>): multiset<EventId> {
    if adds == [] then multiset{} else multiset{adds[0].id} + AddedIds(adds[1..])
  }

  lemma {:induction false} AddedIdsConcat(a: seq<Adding>, b: seq<Adding>)
    ensures AddedIds(a + b) == AddedIds(a) + AddedIds(b)
    decreases |a|
  {
    if a == [] {
      assert a + b == b;
    } else {
      assert (a + b)[1..] == a[1..] + b;
      AddedIdsConcat(a[1..], b);
    }
  }

  lemma {:induction false} AddsNoneOf(adds: seq<Adding>, id: EventId)
    ensures AddsNone(adds, id) <==> AddedIds(adds)[id] == 0
    decreases |adds|
  {
    if adds != [] {
      AddsNoneOf(adds[1..], id);
      assert forall a <- adds :: a == adds[0] || a in adds[1..];
    }
  }

  lemma {:induction false} AddAllIds(t: Timer, adds: seq<Adding>)
    ensures IdsOf(AddAll(t, adds).pending) == IdsOf(t.pending) + AddedIds(adds)
    decreases |adds|
  {
    hide Insert;
    if adds != [] {
      InsertAddsId(t.pending, Entry(adds[0].event.arriveTime, adds[0].id));
      AddAllIds(AddTimerEvent(t, adds[0]), adds[1..]);
    }
  }

  lemma {:induction false} RequeuedCount(events: map<EventId, TimerEvent>, firing: EventId, effect: Effect,
                                         id: EventId)
    ensures AddedIds(Requeued(events, firing, effect))[id]
            == AddedIds(effect.spawned)[id] + if firing == id && id in events && events[id].isRepeated then 1 else 0
  {
    if firing in events && events[firing].isRepeated {
      var own := Adding(firing, ResetArriveTime(events[firing], effect.resetNow), effect.armNow);
      AddedIdsConcat(effect.spawned, [own]);
      assert AddedIds([own]) == multiset{firing} + AddedIds([]);
    } else {
      assert effect.spawned + [] == effect.spawned;
    }
  }

  /** Callbacks apart, what a callback of the timer queues is one entry for each firing of a repeated event. */
  lemma {:induction false} RequeuedIds(events: map<EventId, TimerEvent>, due: seq<Entry>, effects: seq<Effect>,
                                       id: EventId)
    requires |effects| == |due| && id in events && forall f <- effects :: AddsNone(f.spawned, id)
    ensures AddedIds(Additions(events, due, effects))[id] == if events[id].isRepeated then IdsOf(due)[id] else 0
    decreases |due|
  {
    hide AddsNone, Requeued;
    if due != [] {
      assert effects[0] in effects && forall f <- effects[1..] :: f in effects;
      RequeuedIds(events, due[1..], effects[1..], id);
      RequeuedCount(events, due[0].id, effects[0], id);
      AddsNoneOf(effects[0].spawned, id);
      AddedIdsConcat(Requeued(events, due[0].id, effects[0]), Additions(events, due[1..], effects[1..]));
    }
  }

  lemma {:induction false} HeldOnce(t: Timer, now: int, id: EventId)
    requires TimerInv(t, []) && id in IdsOf(Due(t, now))
    ensures id in t.events && IdsOf(Due(t, now))[id] == 1 && IdsOf(Left(t, now))[id] == 0
  {
    hide Sorted, Count, NoneEarly, IdsOf, Keyed, Live;
    DuePartition(t, now);
    IdsConcat(Due(t, now), Left(t, now));
    NoIds();
    assert (IdsOf([]) + IdsOf(t.pending))[id] == IdsOf(Due(t, now))[id] + IdsOf(Left(t, now))[id];
    assert if id in t.events then InStep(t.events[id], (IdsOf([]) + IdsOf(t.pending))[id], Count(t.fired, id))
           else (IdsOf([]) + IdsOf(t.pending))[id] == 0;
  }

  lemma {:induction false} NoIds()
    ensures IdsOf([]) == multiset{}
  {
  }

  ghost predicate DifferentIds(q: seq<Entry>) {
    forall i, j :: 0 <= i < j < |q| ==> q[i].id != q[j].id
  }

  lemma {:induction false} OnceMeansDifferent(q: seq<Entry>)
    requires forall id :: id in IdsOf(q) ==> IdsOf(q)[id] == 1
    ensures DifferentIds(q)
    decreases |q|
  {
    if q != [] {
      forall id | id in IdsOf(q[1..]) ensures IdsOf(q[1..])[id] == 1 {
        assert id in IdsOf(q);
      }
      OnceMeansDifferent(q[1..]);
      forall j | 1 <= j < |q| ensures q[j].id != q[0].id {
        HeldIds(q[1..], q[j].id);
        assert q[j] == q[1..][j - 1];
        assert q[0].id in IdsOf(q);
      }
      forall i, j | 0 <= i < j < |q| ensures q[i].id != q[j].id {
        if i > 0 {
          assert q[i] == q[1..][i - 1] && q[j] == q[1..][j - 1];
        }
      }
    }
  }

  /** Callbacks add none of the events that are due. */
  ghost predicate SpawnOthers(due: seq<Entry>, effects: seq<Effect>)
  {
    forall f, d :: f in effects && d in due ==> AddsNone(f.spawned, d.id)
  }

  lemma {:induction false} DueAreSeparate(t: Timer, now: int, effects: seq<Effect>)
    requires TimerInv(t, []) && |effects| == |Due(t, now)| && SpawnOthers(Due(t, now), effects)
    ensures Separate(Due(t, now), effects)
  {
    hide Due, TimerInv, IdsOf, AddsNone;
    var due := Due(t, now);
    forall id | id in IdsOf(due) ensures IdsOf(due)[id] == 1 {
      HeldOnce(t, now, id);
    }
    OnceMeansDifferent(due);
  }

  lemma {:induction false} LogHolds(due: seq<Entry>, now: int, e: Entry)
    requires e in due
    ensures Firing(e.id, now) in Log(due, now)
    decreases |due|
  {
    if due[0] != e {
      LogHolds(due[1..], now, e);
    }
  }

  // ---------------------------------------------------------------- arming

  /** If the descriptor is armed, then for the head of the queue, reckoned from when it was armed. */
  ghost predicate ArmedForHead(t: Timer) {
    t.arming.Armed? ==>
      t.pending != [] && t.arming.delay == DelayFor(t.pending[0].key, t.arming.since)
  }

  /** The additions are of different events, none of which is queued. */
  ghost predicate Distinct(t: Timer, adds: seq<Adding>) {
    forall id: EventId :: AddedIds(adds)[id] <= 1 && (id in AddedIds(adds) ==> id !in IdsOf(t.pending))
  }

  /** One of the additions comes to an empty queue or precedes everything that is queued. */
  ghost predicate SomeLeads(q: seq<Entry>, adds: seq<Adding>) {
    if q == [] then adds != [] else exists a :: a in adds && a.event.arriveTime < q[0].key
  }

  lemma {:induction false} AddingArms(t: Timer, a: Adding)
    requires Keyed(t.events, t.pending) && a.id !in IdsOf(t.pending)
    ensures var t' := AddTimerEvent(t, a);
            && Keyed(t'.events, t'.pending) && t'.pending != []
            && IdsOf(t'.pending) == IdsOf(t.pending) + multiset{a.id}
            && (t.pending == [] || a.event.arriveTime < t.pending[0].key ==>
                  t'.arming == Armed(a.armNow, DelayFor(a.event.arriveTime, a.armNow))
                  && t'.pending[0].key == a.event.arriveTime)
            && (t.pending != [] && t.pending[0].key <= a.event.arriveTime ==>
                  t'.arming == t.arming && t'.pending[0] == t.pending[0])
  {
    var e := Entry(a.event.arriveTime, a.id);
    InsertAdds(t.pending, e);
    InsertAddsId(t.pending, e);
    InsertKeepsKeyed(t.events, t.pending, a.id, a.event);
    HeldIds(t.pending, a.id);
    if t.pending != [] {
      assert t.pending[0] in t.pending;
    }
  }

  lemma {:induction false} DistinctRest(t: Timer, adds: seq<Adding>)
    requires Distinct(t, adds) && adds != []
    ensures adds[0].id !in IdsOf(t.pending) && Distinct(AddTimerEvent(t, adds[0]), adds[1..])
  {
    hide IdsOf, Insert;
    InsertAddsId(t.pending, Entry(adds[0].event.arriveTime, adds[0].id));
    assert adds[0].id in AddedIds(adds);
    forall id: EventId | id in AddedIds(adds[1..])
      ensures AddedIds(adds[1..])[id] <= 1 && id != adds[0].id && id !in IdsOf(t.pending)
    {
      assert AddedIds(adds)[id] <= 1;
      assert id in AddedIds(adds);
    }
  }

  lemma {:induction false} SomeLeadsSplits(q: seq<Entry>, adds: seq<Adding>)
    requires q != [] && adds != []
    ensures SomeLeads(q, adds) <==> adds[0].event.arriveTime < q[0].key || SomeLeads(q, adds[1..])
  {
    assert adds[0] in adds;
    assert forall a <- adds :: a == adds[0] || a in adds[1..];
  }

  /** Additions arm a disarmed descriptor exactly when one of them leads; and then it is armed for the head. */
  lemma {:induction false} AdditionsArm(t: Timer, adds: seq<Adding>)
    requires Keyed(t.events, t.pending) && Distinct(t, adds)
    ensures ArmedForHead(t) ==> ArmedForHead(AddAll(t, adds))
    ensures AddAll(t, adds).arming.Armed? <==> t.arming.Armed? || SomeLeads(t.pending, adds)
    decreases |adds|
  {
    hide AddTimerEvent, Keyed, IdsOf, DelayFor, Distinct, AddedIds, SomeLeads;
    if adds == [] {
      NoneLeads(t.pending);
    } else {
      var t' := AddTimerEvent(t, adds[0]);
      DistinctRest(t, adds);
      AddingArms(t, adds[0]);
      AdditionsArm(t', adds[1..]);
      if t.pending == [] {
        FirstLeads(adds);
      } else {
        SomeLeadsSplits(t.pending, adds);
        if t.pending[0].key <= adds[0].event.arriveTime {
          SameHeadLeads(t.pending, t'.pending, adds[1..]);
        }
      }
    }
  }

  lemma {:induction false} NoneLeads(q: seq<Entry>)
    ensures !SomeLeads(q, [])
  {
  }

  lemma {:induction false} FirstLeads(adds: seq<Adding>)
    requires adds != []
    ensures SomeLeads([], adds)
  {
  }

  lemma {:induction false} SameHeadLeads(q: seq<Entry>, r: seq<Entry>, adds: seq<Adding>)
    requires q != [] && r != [] && q[0].key == r[0].key
    ensures SomeLeads(q, adds) <==> SomeLeads(r, adds)
  {
  }

  /** What a tick queues. */
  function TickAdds(t: Timer, now: int, effects: seq<Effect>): seq<Adding>
    requires |effects| == |Due(t, now)|
  {
    Additions(t.events, Due(t, now), effects)
  }

  /** A tick arms a disarmed descriptor exactly when something it queues comes to an emptied queue or
      precedes everything left over, and then for the head. Otherwise what is left over waits for an event
      that nothing will signal. */
  lemma {:induction false} TickRearms(t: Timer, now: int, effects: seq<Effect>)
    requires TimerInv(t, []) && |effects| == |Due(t, now)| && SpawnOthers(Due(t, now), effects)
    requires Distinct(t.(pending := Left(t, now)), TickAdds(t, now, effects))
    ensures var t', adds := OnTimer(t, now, effects), TickAdds(t, now, effects);
            && t' == AddAll(t.(pending := Left(t, now), fired := t.fired + Log(Due(t, now), now)), adds)
            && (t'.arming.Armed? <==> t.arming.Armed? || SomeLeads(Left(t, now), adds))
            && (t.arming == Disarmed ==> ArmedForHead(t'))
  {
    hide Sorted, Count, NoneEarly, IdsOf, AllInStep, SomeLeads, Distinct, AddedIds, Separate, SpawnOthers;
    DuePartition(t, now);
    DueAreSeparate(t, now, effects);
    var left, due := Left(t, now), Due(t, now);
    var adds := TickAdds(t, now, effects);
    var emptied := t.(pending := left);
    FiringIsAdding(emptied, t.events, due, now, effects);
    AddAllKeeps(emptied, adds, t.fired + Log(due, now));
    AdditionsArm(emptied, adds);
  }

  lemma {:induction false} FiringOneShots(t: Timer, due: seq<Entry>, now: int, effects: seq<Effect>)
    requires |effects| == |due| && forall e <- effects :: e.spawned == []
    requires forall d <- due :: d.id in t.events && !t.events[d.id].isRepeated
    ensures FireAll(t, due, now, effects) == t.(fired := t.fired + Log(due, now))
    decreases |due|
  {
    if due == [] {
      assert t.fired + Log(due, now) == t.fired;
    } else {
      LogUnfolds(t.fired, due, now);
      hide Log;
      var logged := t.(fired := t.fired + [Firing(due[0].id, now)]);
      assert Requeued(t.events, due[0].id, effects[0]) == [];
      FiringOneShots(logged, due[1..], now, effects[1..]);
    }
  }

  /** When everything due is one-shot and the callbacks add nothing, the expired descriptor stays
      disarmed, whatever is still queued. */
  lemma {:induction false} OneShotsStrandTheRest(t: Timer, now: int, effects: seq<Effect>)
    requires TimerInv(t, []) && t.arming == Disarmed
    requires |effects| == |Due(t, now)| && forall e <- effects :: e.spawned == []
    requires forall d <- Due(t, now) :: d.id in t.events && !t.events[d.id].isRepeated
    ensures var t' := OnTimer(t, now, effects);
            t'.pending == Left(t, now) && t'.arming == Disarmed && t'.fired == t.fired + Log(Due(t, now), now)
  {
    FiringOneShots(t.(pending := Left(t, now)), Due(t, now), now, effects);
  }

  /** The seconds and nanoseconds given to `timerfd_settime`. */
  function Timespec(delay: int): (int, int) {
    (delay / 1000, delay % 1000 * 1000000)
  }

  /** The delay is never zero, which would disarm, and is handed over without loss. */
  lemma {:induction false} DelayIsProper(arriveTime: int, now: int)
    ensures var delay := DelayFor(arriveTime, now);
            var (sec, nsec) := Timespec(delay);
            && delay > 0 && sec >= 0 && 0 <= nsec < 1000000000
            && (sec > 0 || nsec > 0) && sec * 1000 + nsec / 1000000 == delay
            && (arriveTime > now ==> now + delay == arriveTime) && (arriveTime <= now ==> delay == 100)
  {
  }

  // ---------------------------------------------------------------- the queue after a tick

  function EntriesOf(adds: seq<Adding>): seq<Entry> {
    if adds == [] then [] else [Entry(adds[0].event.arriveTime, adds[0].id)] + EntriesOf(adds[1..])
  }

  /** The entries with a given key, in queue order. */
  function WithKey(q: seq<Entry>, key: int): seq<Entry> {
    if q == [] then [] else (if q[0].key == key then [q[0]] else []) + WithKey(q[1..], key)
  }

  lemma {:induction false} NoneWithKey(q: seq<Entry>, key: int)
    requires forall e <- q :: key < e.key
    ensures WithKey(q, key) == []
    decreases |q|
  {
    if q != [] {
      NoneWithKey(q[1..], key);
    }
  }

  /** An insertion comes last among the entries with its key, and changes the order of no others. */
  lemma {:induction false} InsertComesLast(q: seq<Entry>, e: Entry, key: int)
    requires Sorted(q)
    ensures WithKey(Insert(q, e), key) == WithKey(q, key) + if e.key == key then [e] else []
    decreases |q|
  {
    if q == [] || e.key < q[0].key {
      assert ([e] + q)[1..] == q;
      if e.key == key {
        HeadIsEarliest(q);
        NoneWithKey(q, key);
      }
    } else {
      InsertComesLast(q[1..], e, key);
      assert ([q[0]] + Insert(q[1..], e))[1..] == Insert(q[1..], e);
    }
  }

  lemma {:induction false} EntriesUnfold(adds: seq<Adding>)
    requires adds != []
    ensures var e := Entry(adds[0].event.arriveTime, adds[0].id);
            && EntriesOf(adds) == [e] + EntriesOf(adds[1..])
            && multiset(EntriesOf(adds)) == multiset{e} + multiset(EntriesOf(adds[1..]))
  {
    var e, rest := Entry(adds[0].event.arriveTime, adds[0].id), EntriesOf(adds[1..]);
    assert multiset([e] + rest) == multiset{e} + multiset(rest);
  }

  lemma {:induction false} AddAllHolds(t: Timer, adds: seq<Adding>)
    ensures multiset(AddAll(t, adds).pending) == multiset(t.pending) + multiset(EntriesOf(adds))
    decreases |adds|
  {
    hide Insert, EntriesOf;
    if adds == [] {
      NoEntries();
    } else {
      EntriesUnfold(adds);
      InsertAdds(t.pending, Entry(adds[0].event.arriveTime, adds[0].id));
      AddAllHolds(AddTimerEvent(t, adds[0]), adds[1..]);
    }
  }

  lemma {:induction false} NoEntries()
    ensures EntriesOf([]) == []
  {
  }

  lemma {:induction false} WithKeyUnfolds(e: Entry, rest: seq<Entry>, key: int)
    ensures WithKey([e] + rest, key) == (if e.key == key then [e] else []) + WithKey(rest, key)
  {
    assert ([e] + rest)[1..] == rest;
  }

  lemma {:induction false} AddAllInOrder(t: Timer, adds: seq<Adding>, key: int)
    requires Sorted(t.pending)
    ensures Sorted(AddAll(t, adds).pending)
    ensures WithKey(AddAll(t, adds).pending, key) == WithKey(t.pending, key) + WithKey(EntriesOf(adds), key)
    decreases |adds|
  {
    hide Insert, Sorted, EntriesOf, WithKey;
    if adds == [] {
      NoEntries();
      NoneWithKey([], key);
    } else {
      var e := Entry(adds[0].event.arriveTime, adds[0].id);
      EntriesUnfold(adds);
      WithKeyUnfolds(e, EntriesOf(adds[1..]), key);
      InsertKeepsOrder(t.pending, e);
      InsertComesLast(t.pending, e, key);
      AddAllInOrder(AddTimerEvent(t, adds[0]), adds[1..], key);
    }
  }

  /** After a tick the queue is sorted; it holds the entries that were not due and those that were queued
      during the tick, and nothing else; and entries with equal keys stand in the order in which they were
      queued, those left over first. */
  lemma {:induction false} QueueAfterTick(t: Timer, now: int, effects: seq<Effect>, key: int)
    requires TimerInv(t, []) && |effects| == |Due(t, now)| && SpawnOthers(Due(t, now), effects)
    ensures var q, queued := OnTimer(t, now, effects).pending, EntriesOf(TickAdds(t, now, effects));
            && Sorted(q)
            && multiset(q) == multiset(Left(t, now)) + multiset(queued)
            && WithKey(q, key) == WithKey(Left(t, now), key) + WithKey(queued, key)
  {
    hide Count, NoneEarly, IdsOf, AllInStep, Separate, SpawnOthers, WithKey, EntriesOf, Keyed, Sorted;
    DuePartition(t, now);
    DueAreSeparate(t, now, effects);
    DueAreKnown(t, now);
    SortedDrop(t.pending, DueCount(t.pending, now));
    var emptied := t.(pending := Left(t, now));
    FiringIsAdding(emptied, t.events, Due(t, now), now, effects);
    var logged := emptied.(fired := t.fired + Log(Due(t, now), now));
    AddAllHolds(logged, TickAdds(t, now, effects));
    AddAllInOrder(logged, TickAdds(t, now, effects), key);
  }

  // ---------------------------------------------------------------- arming over whole runs

  lemma {:induction false} AddAllGrows(t: Timer, adds: seq<Adding>)
    ensures t.events.Keys <= AddAll(t, adds).events.Keys
    decreases |adds|
  {
    if adds != [] {
      AddAllGrows(AddTimerEvent(t, adds[0]), adds[1..]);
    }
  }

  /** Newly constructed events are different ones. */
  lemma {:induction false} NewAreDifferent(t: Timer, adds: seq<Adding>, id: EventId)
    requires AllNew(t, adds)
    ensures AddedIds(adds)[id] <= 1 && (id in t.events ==> AddedIds(adds)[id] == 0)
    decreases |adds|
  {
    if adds != [] {
      NewAreDifferent(AddTimerEvent(t, adds[0]), adds[1..], id);
    }
  }

  lemma {:induction false} QueuedIsKnown(t: Timer, hand: seq<Entry>, id: EventId)
    requires TimerInv(t, hand) && id !in t.events
    ensures id !in IdsOf(t.pending)
  {
    assert (IdsOf(hand) + IdsOf(t.pending))[id] == 0;
  }

  /** What is queued around one firing are different events, none of which is queued already. */
  lemma {:induction false} RequeuedAreDistinct(t: Timer, d: Entry, hand: seq<Entry>, effect: Effect)
    requires TimerInv(t, [d] + hand) && AllNew(t, effect.spawned)
    ensures Distinct(t, Requeued(t.events, d.id, effect))
  {
    InHandOnce(t, hand, d);
    hide TimerInv, IdsOf, InStep, Count, AllNew, AddedIds, AddsNone;
    forall id: EventId
      ensures AddedIds(Requeued(t.events, d.id, effect))[id] <= 1
      ensures id in AddedIds(Requeued(t.events, d.id, effect)) ==> id !in IdsOf(t.pending)
    {
      NewAreDifferent(t, effect.spawned, id);
      RequeuedCount(t.events, d.id, effect, id);
      if id !in t.events {
        QueuedIsKnown(t, [d] + hand, id);
      }
    }
  }

  lemma {:induction false} SameAdditions(a: map<EventId, TimerEvent>, b: map<EventId, TimerEvent>, due: seq<Entry>,
                                         effects: seq<Effect>)
    requires |effects| == |due| && forall d <- due :: d.id in a && d.id in b && a[d.id] == b[d.id]
    ensures Additions(a, due, effects) == Additions(b, due, effects)
    decreases |due|
  {
    hide Requeued;
    if due != [] {
      assert due[0] in due;
      SameRequeued(a, b, due[0].id, effects[0]);
      SameAdditions(a, b, due[1..], effects[1..]);
    }
  }

  lemma {:induction false} OthersUntouched(t: Timer, d: Entry, hand: seq<Entry>, now: int, effect: Effect)
    requires TimerInv(t, [d] + hand) && AllNew(t, effect.spawned)
    ensures var t' := AddAll(t.(fired := t.fired + [Firing(d.id, now)]), Requeued(t.events, d.id, effect));
            forall h <- hand :: h.id in t.events && h.id in t'.events && t'.events[h.id] == t.events[h.id]
  {
    InHandOnce(t, hand, d);
    var fired := t.(fired := t.fired + [Firing(d.id, now)]);
    var first := Requeued(t.events, d.id, effect);
    forall h <- hand ensures h.id in t.events && AddsNone(first, h.id) {
      assert h in [d] + hand;
      HeldIds(hand, h.id);
      NewAreOthers(t, effect.spawned, h.id);
    }
    hide TimerInv, AddAll, Requeued, AddsNone, AllNew;
    AddAllKeeps(fired, first, fired.fired);
  }

  lemma {:induction false} DistinctConcat(t: Timer, t': Timer, first: seq<Adding>, rest: seq<Adding>)
    requires Distinct(t, first) && Distinct(t', rest)
    requires IdsOf(t'.pending) == IdsOf(t.pending) + AddedIds(first)
    ensures Distinct(t, first + rest)
  {
    hide IdsOf, AddedIds;
    AddedIdsConcat(first, rest);
    forall id: EventId
      ensures AddedIds(first + rest)[id] <= 1 && (id in AddedIds(first + rest) ==> id !in IdsOf(t.pending))
    {
      assert AddedIds(first)[id] <= 1 && AddedIds(rest)[id] <= 1;
    }
  }

  /** Callbacks that add only newly constructed events add none that is known, and what they and the repeated
      events queue are different events. */
  lemma {:induction false} ProperAddsAreDistinct(t: Timer, due: seq<Entry>, now: int, effects: seq<Effect>)
    requires TimerInv(t, due) && |effects| == |due| && Proper(t, due, now, effects)
    requires forall d <- due :: d.key <= now
    ensures forall f, id :: f in effects && id in t.events ==> AddsNone(f.spawned, id)
    ensures Distinct(t, Additions(t.events, due, effects))
    decreases |due|
  {
    hide TimerInv, AddTimerEvent, AllNew, Requeued, AddAll, AddsNone, IdsOf, AddedIds, Distinct;
    if due == [] {
      NothingIsDistinct(t);
    } else {
      var d, hand := due[0], due[1..];
      assert due == [d] + hand;
      var fired := t.(fired := t.fired + [Firing(d.id, now)]);
      var first := Requeued(t.events, d.id, effects[0]);
      var t' := AddAll(fired, first);
      FiringKeepsInv(t, d, hand, now, effects[0]);
      ProperAddsAreDistinct(t', hand, now, effects[1..]);
      OthersUntouched(t, d, hand, now, effects[0]);
      SameAdditions(t.events, t'.events, hand, effects[1..]);
      RequeuedAreDistinct(t, d, hand, effects[0]);
      AddAllIds(fired, first);
      DistinctConcat(t, t', first, Additions(t.events, hand, effects[1..]));
      AddAllGrows(fired, first);
      forall f, id | f in effects && id in t.events ensures AddsNone(f.spawned, id) {
        if f == effects[0] {
          NewAreOthers(t, f.spawned, id);
        } else {
          assert f in effects[1..];
        }
      }
    }
  }

  lemma {:induction false} NothingIsDistinct(t: Timer)
    ensures Distinct(t, [])
  {
  }

  lemma {:induction false} LegalTickIsDistinct(t: Timer, now: int, effects: seq<Effect>)
    requires TimerInv(t, []) && Legal(t, Tick(now, effects))
    ensures SpawnOthers(Due(t, now), effects)
    ensures Distinct(t.(pending := Left(t, now)), TickAdds(t, now, effects))
  {
    hide TimerInv, Due, Left, Proper, AddsNone, Distinct, Additions;
    DuePartition(t, now);
    DueAreKnown(t, now);
    ProperAddsAreDistinct(t.(pending := Left(t, now)), Due(t, now), now, effects);
  }

  function Later(a: int, b: int): int { if a < b then b else a }

  /** An armed descriptor goes off by the time the head of the queue arrives, or 100 ms after it was armed. */
  ghost predicate OnTime(t: Timer) {
    t.arming.Armed? && t.pending != [] ==>
      t.arming.since + t.arming.delay <= Later(t.pending[0].key, t.arming.since + 100)
  }

  /** A queue that is not empty has its descriptor armed, and in time for its head. */
  ghost predicate Guarded(t: Timer) {
    t.pending != [] ==> t.arming.Armed? && OnTime(t)
  }

  lemma {:induction false} AddKeepsOnTime(t: Timer, a: Adding)
    requires Keyed(t.events, t.pending) && a.id !in IdsOf(t.pending) && OnTime(t)
    ensures OnTime(AddTimerEvent(t, a))
  {
    hide AddTimerEvent, Keyed, IdsOf;
    AddingArms(t, a);
  }

  lemma {:induction false} AddAllKeepsOnTime(t: Timer, adds: seq<Adding>)
    requires Keyed(t.events, t.pending) && Distinct(t, adds) && OnTime(t)
    ensures OnTime(AddAll(t, adds))
    decreases |adds|
  {
    hide AddTimerEvent, Keyed, IdsOf, Distinct, OnTime, DelayFor, AddedIds;
    if adds != [] {
      DistinctRest(t, adds);
      AddingArms(t, adds[0]);
      AddKeepsOnTime(t, adds[0]);
      AddAllKeepsOnTime(AddTimerEvent(t, adds[0]), adds[1..]);
    }
  }

  /** Taking the due entries off the queue makes its head later only. */
  lemma {:induction false} LeftKeepsOnTime(t: Timer, now: int)
    requires TimerInv(t, []) && OnTime(t)
    ensures OnTime(t.(pending := Left(t, now)))
  {
    hide Count, NoneEarly, IdsOf, AllInStep, Keyed;
    HeadIsEarliest(t.pending);
  }

  lemma {:induction false} TickKeepsOnTime(t: Timer, now: int, effects: seq<Effect>)
    requires TimerInv(t, []) && Legal(t, Tick(now, effects)) && OnTime(t)
    ensures OnTime(OnTimer(t, now, effects))
  {
    hide TimerInv, Due, Left, Proper, Distinct, TickAdds, OnTimer, AddAll, OnTime, Keyed;
    LegalTickIsDistinct(t, now, effects);
    TickRearms(t, now, effects);
    LeftKeepsOnTime(t, now);
    LeftIsKeyed(t, now);
    var emptied := t.(pending := Left(t, now));
    var adds := TickAdds(t, now, effects);
    AddAllKeepsOnTime(emptied, adds);
    AddAllKeeps(emptied, adds, t.fired + Log(Due(t, now), now));
    LogIsNoMatter(AddAll(emptied, adds), t.fired + Log(Due(t, now), now));
  }

  lemma {:induction false} LogIsNoMatter(t: Timer, fired: seq<Firing>)
    ensures OnTime(t.(fired := fired)) <==> OnTime(t)
  {
  }

  lemma {:induction false} LeftIsKeyed(t: Timer, now: int)
    requires TimerInv(t, [])
    ensures Keyed(t.events, Left(t, now))
  {
    hide Count, NoneEarly, IdsOf, AllInStep, Sorted;
    KeyedParts(t.events, t.pending, DueCount(t.pending, now));
  }

  /** The tick finds the descriptor armed again, leaves no entry over, or queues something that precedes
      every entry it leaves over. */
  ghost predicate Rearms(t: Timer, now: int, effects: seq<Effect>)
    requires |effects| == |Due(t, now)|
  {
    t.arming.Armed? || Left(t, now) == [] || SomeLeads(Left(t, now), TickAdds(t, now, effects))
  }

  lemma {:induction false} AddAllLength(t: Timer, adds: seq<Adding>)
    ensures |AddAll(t, adds).pending| == |t.pending| + |adds|
    decreases |adds|
  {
    if adds != [] {
      AddAllLength(AddTimerEvent(t, adds[0]), adds[1..]);
    }
  }

  lemma {:induction false} TickGuards(t: Timer, now: int, effects: seq<Effect>)
    requires TimerInv(t, []) && Legal(t, Tick(now, effects))
    requires OnTime(t)
    ensures Guarded(OnTimer(t, now, effects)) <==> Rearms(t, now, effects)
  {
    hide TimerInv, Due, Left, Proper, Distinct, TickAdds, OnTimer, AddAll, OnTime;
    TickKeepsOnTime(t, now, effects);
    LegalTickIsDistinct(t, now, effects);
    TickRearms(t, now, effects);
    AddAllLength(t.(pending := Left(t, now), fired := t.fired + Log(Due(t, now), now)), TickAdds(t, now, effects));
  }

  lemma {:induction false} AddGuards(t: Timer, a: Adding)
    requires TimerInv(t, []) && New(t, a) && Guarded(t)
    ensures Guarded(AddTimerEvent(t, a))
  {
    hide Insert, DelayFor;
    QueuedIsKnown(t, [], a.id);
    AddingArms(t, a);
    AddLegalKeepsOnTime(t, a);
  }

  lemma {:induction false} AddLegalKeepsOnTime(t: Timer, a: Adding)
    requires TimerInv(t, []) && New(t, a) && OnTime(t)
    ensures OnTime(AddTimerEvent(t, a))
  {
    hide Insert, DelayFor, AddTimerEvent;
    QueuedIsKnown(t, [], a.id);
    AddKeepsOnTime(t, a);
  }

  /** After an expiry the timer owes a tick. */
  function Owes(owed: bool, op: Op): bool {
    match op
    case Add(_) => owed
    case Expire => true
    case Tick(_, _) => false
  }

  /** Whenever no tick is owed, the queue is guarded. */
  ghost predicate AlwaysGuarded(t: Timer, ops: seq<Op>, owed: bool)
    decreases |ops|
  {
    && (!owed ==> Guarded(t))
    && (ops != [] ==> AlwaysGuarded(Apply(t, ops[0]), ops[1..], Owes(owed, ops[0])))
  }

  ghost predicate TicksRearm(t: Timer, ops: seq<Op>)
    decreases |ops|
  {
    ops != [] ==>
      && (ops[0].Tick? && |ops[0].effects| == |Due(t, ops[0].now)| ==> Rearms(t, ops[0].now, ops[0].effects))
      && TicksRearm(Apply(t, ops[0]), ops[1..])
  }

  /** Which runs keep a queue that is not empty armed, and in time for its head, but for the time between an
      expiry and its tick: exactly those in which every tick finds the descriptor armed again, leaves nothing
      over, or queues something ahead of all it leaves over. Whenever it is armed, it is in time. */
  lemma {:induction false} RunsKeepArmed(t: Timer, ops: seq<Op>, owed: bool)
    requires TimerInv(t, []) && LegalRun(t, ops) && OnTime(t) && (!owed ==> Guarded(t))
    ensures AlwaysGuarded(t, ops, owed) <==> TicksRearm(t, ops)
    ensures OnTime(Run(t, ops))
    decreases |ops|
  {
    hide TimerInv, Guarded, Rearms, OnTime, OnTimer, AddTimerEvent, New, Proper, Due, Left;
    if ops != [] {
      var op := ops[0];
      OpKeepsInv(t, op);
      match op {
        case Add(a) =>
          AddLegalKeepsOnTime(t, a);
          if !owed {
            AddGuards(t, a);
          }
        case Expire =>
          DisarmedIsOnTime(t);
        case Tick(now, effects) =>
          TickKeepsOnTime(t, now, effects);
          TickGuards(t, now, effects);
          if !Rearms(t, now, effects) {
            RunsStayOnTime(Apply(t, op), ops[1..]);
            return;
          }
      }
      RunsKeepArmed(Apply(t, op), ops[1..], Owes(owed, op));
    }
  }

  lemma {:induction false} DisarmedIsOnTime(t: Timer)
    ensures OnTime(t.(arming := Disarmed))
  {
  }

  lemma {:induction false} RunsStayOnTime(t: Timer, ops: seq<Op>)
    requires TimerInv(t, []) && LegalRun(t, ops) && OnTime(t)
    ensures OnTime(Run(t, ops))
    decreases |ops|
  {
    hide TimerInv, OnTime, OnTimer, AddTimerEvent, New, Proper, Due, Left;
    if ops != [] {
      var op := ops[0];
      OpKeepsInv(t, op);
      match op {
        case Add(a) => AddLegalKeepsOnTime(t, a);
        case Expire => DisarmedIsOnTime(t);
        case Tick(now, effects) => TickKeepsOnTime(t, now, effects);
      }
      RunsStayOnTime(Apply(t, op), ops[1..]);
    }
  }

  // ---------------------------------------------------------------- what a tick leaves, entry by entry

  lemma {:induction false} LiveIsExact(events: map<EventId, TimerEvent>, q: seq<Entry>, e: Entry)
    ensures e in Live(events, q) <==> e in q && !(e.id in events && events[e.id].isCanceled)
    decreases |q|
  {
    if q != [] {
      LiveIsExact(events, q[1..], e);
      assert q == [q[0]] + q[1..];
    }
  }

  /** In any sorted queue: what is taken to fire is what the clock has reached and nobody has cancelled; what
      is left is what the clock has not reached; a cancelled entry that it has reached is dropped. */
  lemma {:induction false} DueIsExact(t: Timer, now: int, e: Entry)
    requires Sorted(t.pending)
    ensures e in Due(t, now) <==>
              e in t.pending && e.key <= now && !(e.id in t.events && t.events[e.id].isCanceled)
    ensures e in Left(t, now) <==> e in t.pending && now < e.key
  {
    hide Sorted, Live;
    var k := DueCount(t.pending, now);
    var front, left := t.pending[..k], t.pending[k..];
    assert t.pending == front + left;
    SortedDrop(t.pending, k);
    HeadIsEarliest(left);
    LiveIsExact(t.events, front, e);
  }

  /** The firings of a tick, one for each due entry, in their order, at its clock reading. */
  lemma {:induction false} LogInOrder(due: seq<Entry>, now: int, k: nat)
    requires k < |due|
    ensures |Log(due, now)| == |due| && Log(due, now)[k] == Firing(due[k].id, now)
    decreases |due|
  {
    if |due| > 1 {
      LogInOrder(due[1..], now, if k > 0 then k - 1 else 0);
    }
  }

  /** A repeated event as it is queued again: its next arrival is one interval from the reading at its reset. */
  function QueuedAgain(e: TimerEvent, resetNow: int): TimerEvent {
    TimerEvent(resetNow + e.interval, e.interval, e.isRepeated, e.isCanceled, e.created)
  }

  lemma {:induction false} AdditionsHold(events: map<EventId, TimerEvent>, due: seq<Entry>, effects: seq<Effect>,
                                         i: nat)
    requires |effects| == |due| && i < |due| && due[i].id in events
    ensures forall a <- effects[i].spawned :: a in Additions(events, due, effects)
    ensures var e := events[due[i].id];
            e.isRepeated ==>
              Adding(due[i].id, QueuedAgain(e, effects[i].resetNow), effects[i].armNow)
              in Additions(events, due, effects)
    decreases |due|
  {
    if i > 0 {
      AdditionsHold(events, due[1..], effects[1..], i - 1);
    }
  }

  lemma {:induction false} AddAllKeepsEntry(t: Timer, adds: seq<Adding>, e: Entry)
    requires e in t.pending
    ensures e in AddAll(t, adds).pending
    decreases |adds|
  {
    if adds != [] {
      var a := Entry(adds[0].event.arriveTime, adds[0].id);
      InsertAdds(t.pending, a);
      assert e in multiset(t.pending) && e in multiset(Insert(t.pending, a));
      AddAllKeepsEntry(AddTimerEvent(t, adds[0]), adds[1..], e);
    }
  }

  lemma {:induction false} AddedOnceIsHeld(t: Timer, adds: seq<Adding>, a: Adding)
    requires a in adds && AddedIds(adds)[a.id] == 1
    ensures var n := AddAll(t, adds);
            a.id in n.events && n.events[a.id] == a.event && Entry(a.event.arriveTime, a.id) in n.pending
    decreases |adds|
  {
    hide Insert;
    var e, next := Entry(a.event.arriveTime, a.id), AddTimerEvent(t, adds[0]);
    if adds[0] == a {
      AddsNoneOf(adds[1..], a.id);
      AddAllKeeps(next, adds[1..], next.fired);
      InsertAdds(t.pending, e);
      assert e in multiset(Insert(t.pending, e));
      AddAllKeepsEntry(next, adds[1..], e);
    } else {
      assert a in adds[1..];
      if adds[0].id == a.id {
        AddsNoneOf(adds[1..], a.id);
      }
      AddedOnceIsHeld(next, adds[1..], a);
    }
  }

  lemma {:induction false} HeldOnceIsOne(q: seq<Entry>, e: Entry, f: Entry)
    requires e in q && f in q && e.id == f.id && IdsOf(q)[e.id] == 1
    ensures e == f
    decreases |q|
  {
    assert q == [q[0]] + q[1..];
    HeldIds(q[1..], e.id);
    if q[0].id != e.id {
      HeldOnceIsOne(q[1..], e, f);
    }
  }

  lemma {:induction false} TickHolds(t: Timer, now: int, effects: seq<Effect>, i: nat)
    requires TimerInv(t, []) && |effects| == |Due(t, now)| && SpawnOthers(Due(t, now), effects) && i < |effects|
    ensures var n, id := OnTimer(t, now, effects), Due(t, now)[i].id;
            && id in t.events && id in n.events
            && IdsOf(n.pending)[id] == (if t.events[id].isRepeated then 1 else 0)
            && AddedIds(TickAdds(t, now, effects))[id] == (if t.events[id].isRepeated then 1 else 0)
            && n.pending == AddAll(t.(pending := Left(t, now)), TickAdds(t, now, effects)).pending
            && n.events == AddAll(t.(pending := Left(t, now)), TickAdds(t, now, effects)).events
  {
    hide TimerInv, IdsOf, Log, FireAll, AddAll, Additions, Separate, Live, AddedIds;
    var due, left := Due(t, now), Left(t, now);
    HeldIds(due, due[i].id);
    HeldOnce(t, now, due[i].id);
    DueAreSeparate(t, now, effects);
    DueAreKnown(t, now);
    var emptied := t.(pending := left);
    FiringIsAdding(emptied, t.events, due, now, effects);
    var adds := TickAdds(t, now, effects);
    AddAllKeeps(emptied, adds, t.fired + Log(due, now));
    AddAllIds(emptied, adds);
    AddAllGrows(emptied, adds);
    RequeuedIds(t.events, due, effects, due[i].id);
  }

  /** A repeated event that fires in a tick is queued once more and no more often, for exactly one interval
      behind the clock reading at its reset; its interval, its kind and its creation stay. */
  lemma {:induction false} RepeatedIsQueuedAgain(t: Timer, now: int, effects: seq<Effect>, i: nat)
    requires TimerInv(t, []) && |effects| == |Due(t, now)| && SpawnOthers(Due(t, now), effects) && i < |effects|
    requires Due(t, now)[i].id in t.events && t.events[Due(t, now)[i].id].isRepeated
    ensures var n, id := OnTimer(t, now, effects), Due(t, now)[i].id;
            var e, next := t.events[id], effects[i].resetNow + t.events[id].interval;
            && IdsOf(n.pending)[id] == 1 && Entry(next, id) in n.pending
            && (forall x <- n.pending :: x.id == id ==> x.key == next)
            && id in n.events && n.events[id] == TimerEvent(next, e.interval, true, e.isCanceled, e.created)
  {
    hide TimerInv, IdsOf, OnTimer, AddAll, Additions, Due, Left, AddedIds, SpawnOthers;
    TickHolds(t, now, effects, i);
    var due := Due(t, now);
    var id := due[i].id;
    var again := Adding(id, QueuedAgain(t.events[id], effects[i].resetNow), effects[i].armNow);
    AdditionsHold(t.events, due, effects, i);
    AddedOnceIsHeld(t.(pending := Left(t, now)), TickAdds(t, now, effects), again);
    var n, e := OnTimer(t, now, effects), Entry(again.event.arriveTime, id);
    forall x <- n.pending | x.id == id ensures x.key == e.key {
      HeldOnceIsOne(n.pending, x, e);
    }
  }

  /** A one-shot event that fires is gone from the queue, and otherwise as it was. */
  lemma {:induction false} OneShotIsGone(t: Timer, now: int, effects: seq<Effect>, i: nat)
    requires TimerInv(t, []) && |effects| == |Due(t, now)| && SpawnOthers(Due(t, now), effects) && i < |effects|
    requires Due(t, now)[i].id in t.events && !t.events[Due(t, now)[i].id].isRepeated
    ensures var n, id := OnTimer(t, now, effects), Due(t, now)[i].id;
            && (forall x <- n.pending :: x.id != id)
            && id in n.events && n.events[id] == t.events[id]
  {
    hide TimerInv, IdsOf, OnTimer, AddAll, Additions, Due, Left, AddedIds, SpawnOthers;
    TickHolds(t, now, effects, i);
    var n, id := OnTimer(t, now, effects), Due(t, now)[i].id;
    var emptied, adds := t.(pending := Left(t, now)), TickAdds(t, now, effects);
    HeldIds(n.pending, id);
    AddsNoneOf(adds, id);
    AddAllKeeps(emptied, adds, emptied.fired);
  }

  /** What the callbacks of a tick add is queued for its arrival time. */
  lemma {:induction false} SpawnedAreQueued(t: Timer, now: int, effects: seq<Effect>, i: nat, a: Adding)
    requires TimerInv(t, []) && Legal(t, Tick(now, effects)) && i < |effects| && a in effects[i].spawned
    ensures var n := OnTimer(t, now, effects);
            a.id in n.events && n.events[a.id] == a.event && Entry(a.event.arriveTime, a.id) in n.pending
  {
    hide TimerInv, IdsOf, OnTimer, AddAll, Additions, Due, Left, AddedIds, SpawnOthers, Proper;
    LegalTickIsDistinct(t, now, effects);
    TickHolds(t, now, effects, i);
    var adds := TickAdds(t, now, effects);
    AdditionsHold(t.events, Due(t, now), effects, i);
    AddsNoneOf(adds, a.id);
    assert AddedIds(adds)[a.id] <= 1;
    AddedOnceIsHeld(t.(pending := Left(t, now)), adds, a);
  }

  lemma {:induction false} AdditionsConcat(events: map<EventId, TimerEvent>, a: seq<Entry>, b: seq<Entry>,
                                           ea: seq<Effect>, eb: seq<Effect>)
    requires |a| == |ea| && |b| == |eb|
    ensures Additions(events, a + b, ea + eb) == Additions(events, a, ea) + Additions(events, b, eb)
    decreases |a|
  {
    hide Requeued;
    if a == [] {
      assert a + b == b && ea + eb == eb;
    } else {
      assert (a + b)[1..] == a[1..] + b && (ea + eb)[1..] == ea[1..] + eb;
      AdditionsConcat(events, a[1..], b, ea[1..], eb);
    }
  }

  /** In what order a tick queues: due entry by due entry, and for each first what its callback adds and then
      the event itself. */
  lemma {:induction false} QueuedInOrder(events: map<EventId, TimerEvent>, before: seq<Entry>, d: Entry,
                                         behind: seq<Entry>, eb: seq<Effect>, effect: Effect, ea: seq<Effect>)
    requires |before| == |eb| && |behind| == |ea| && d.id in events
    ensures var own := if events[d.id].isRepeated
                       then [Adding(d.id, QueuedAgain(events[d.id], effect.resetNow), effect.armNow)] else [];
            Additions(events, before + [d] + behind, eb + [effect] + ea)
            == Additions(events, before, eb) + (effect.spawned + own) + Additions(events, behind, ea)
  {
    AdditionsConcat(events, before + [d], behind, eb + [effect], ea);
    AdditionsConcat(events, before, [d], eb, [effect]);
    assert Additions(events, [d], [effect]) == Requeued(events, d.id, effect) + [] by {
      assert [d][1..] == [] && [effect][1..] == [];
    }
  }

  // ---------------------------------------------------------------- when an event fires

  /** The clock reading of the first tick at or behind a key. */
  function FirstTick(ops: seq<Op>, key: int): Option<int> {
    if ops == [] then None
    else if ops[0].Tick? && key <= ops[0].now then Some(ops[0].now)
    else FirstTick(ops[1..], key)
  }

  /** An entry behind the clock reading stays queued. */
  lemma {:induction false} EarlyTickLeaves(t: Timer, now: int, effects: seq<Effect>, e: Entry)
    requires TimerInv(t, []) && Legal(t, Tick(now, effects)) && e in t.pending && now < e.key
    ensures e in OnTimer(t, now, effects).pending
  {
    hide TimerInv, Due, Left, Proper, Distinct, TickAdds, OnTimer, AddAll;
    DuePartition(t, now);
    LegalTickIsDistinct(t, now, effects);
    TickRearms(t, now, effects);
    assert e in Due(t, now) + Left(t, now);
    AddAllKeepsEntry(t.(pending := Left(t, now), fired := t.fired + Log(Due(t, now), now)),
                     TickAdds(t, now, effects), e);
  }

  lemma {:induction false} DueTickFires(t: Timer, now: int, effects: seq<Effect>, e: Entry)
    requires TimerInv(t, []) && Legal(t, Tick(now, effects)) && e in t.pending && e.key <= now
    ensures Firing(e.id, now) in OnTimer(t, now, effects).fired
  {
    hide TimerInv, Due, Left, Proper, Distinct, TickAdds, OnTimer, AddAll, Log;
    DuePartition(t, now);
    LegalTickIsDistinct(t, now, effects);
    TickRearms(t, now, effects);
    assert e in Due(t, now) + Left(t, now);
    LogHolds(Due(t, now), now, e);
    var logged := t.(pending := Left(t, now), fired := t.fired + Log(Due(t, now), now));
    AddAllKeeps(logged, TickAdds(t, now, effects), logged.fired);
  }

  lemma {:induction false} FiredStays(t: Timer, ops: seq<Op>, f: Firing)
    requires TimerInv(t, []) && LegalRun(t, ops) && f in t.fired
    ensures f in Run(t, ops).fired
    decreases |ops|
  {
    hide TimerInv, OnTimer, AddTimerEvent, Proper, Due, Left;
    if ops != [] {
      OpKeepsInv(t, ops[0]);
      OpKeepsFired(t, ops[0], f);
      FiredStays(Apply(t, ops[0]), ops[1..], f);
    }
  }

  lemma {:induction false} OpKeepsFired(t: Timer, op: Op, f: Firing)
    requires TimerInv(t, []) && Legal(t, op) && f in t.fired
    ensures f in Apply(t, op).fired
  {
    match op
    case Add(_) =>
    case Expire =>
    case Tick(now, effects) =>
      hide TimerInv, Due, Left, Proper, Distinct, TickAdds, OnTimer, AddAll, Log;
      LegalTickIsDistinct(t, now, effects);
      TickRearms(t, now, effects);
      var logged := t.(pending := Left(t, now), fired := t.fired + Log(Due(t, now), now));
      AddAllKeeps(logged, TickAdds(t, now, effects), logged.fired);
  }

  /** In every run an entry fires at the first tick at or behind its key, and until then it stays
      queued. How late that tick can be is what guarding bounds. */
  lemma {:induction false} FiresAtTheFirstTick(t: Timer, ops: seq<Op>, e: Entry)
    requires TimerInv(t, []) && LegalRun(t, ops) && e in t.pending
    ensures match FirstTick(ops, e.key)
            case Some(now) => Firing(e.id, now) in Run(t, ops).fired
            case None => e in Run(t, ops).pending
    decreases |ops|
  {
    hide TimerInv, OnTimer, Proper, Due, Left;
    if ops != [] {
      var op := ops[0];
      OpKeepsInv(t, op);
      match op {
        case Add(a) =>
          AddAllKeepsEntry(t, [a], e);
          AddOne(t, a);
        case Expire =>
        case Tick(now, effects) =>
          if e.key <= now {
            DueTickFires(t, now, effects, e);
            FiredStays(Apply(t, op), ops[1..], Firing(e.id, now));
            return;
          }
          EarlyTickLeaves(t, now, effects, e);
      }
      FiresAtTheFirstTick(Apply(t, op), ops[1..], e);
    }
  }

  // ---------------------------------------------------------------- cancelling

  /** What `SetCancel` writes is the flag that says whether the event repeats. */
  function SetCancel(e: TimerEvent, val: bool): TimerEvent {
    e.(isRepeated := val)
  }

  /** So cancelling a queued event keeps it from nothing: it is due as before and it fires; and after the
      callback of the timer it is in the queue again, once, exactly when `SetCancel` was given true. */
  lemma {:induction false} CancelledEventRepeats(t: Timer, e: Entry, now: int, val: bool, effects: seq<Effect>)
    requires TimerInv(t, []) && e in Due(t, now)
    requires |effects| == |Due(t, now)| && SpawnOthers(Due(t, now), effects)
    ensures e.id in t.events
    ensures var t' := t.(events := t.events[e.id := SetCancel(t.events[e.id], val)]);
            && Due(t', now) == Due(t, now)
            && Firing(e.id, now) in Log(Due(t, now), now)
            && OnTimer(t', now, effects).fired == t.fired + Log(Due(t, now), now)
            && IdsOf(OnTimer(t', now, effects).pending)[e.id] == if val then 1 else 0
  {
    hide TimerInv, IdsOf, Log, FireAll, AddAll, Additions, Separate, Live, AddedIds;
    var due, left := Due(t, now), Left(t, now);
    HeldIds(due, e.id);
    HeldOnce(t, now, e.id);
    var t' := t.(events := t.events[e.id := SetCancel(t.events[e.id], val)]);
    SameLive(t.events, t'.events, t.pending[..DueCount(t.pending, now)]);
    LogHolds(due, now, e);
    DueAreSeparate(t, now, effects);
    DueAreKnown(t, now);
    var emptied := t'.(pending := left);
    FiringIsAdding(emptied, t'.events, due, now, effects);
    var adds := Additions(t'.events, due, effects);
    AddAllKeeps(emptied, adds, t.fired + Log(due, now));
    AddAllIds(emptied, adds);
    RequeuedIds(t'.events, due, effects, e.id);
  }

  lemma {:induction false} DueAreKnown(t: Timer, now: int)
    requires TimerInv(t, [])
    ensures forall d <- Due(t, now) :: d.id in t.events
  {
    hide IdsOf, TimerInv;
    forall d <- Due(t, now) ensures d.id in t.events {
      HeldIds(Due(t, now), d.id);
      HeldOnce(t, now, d.id);
    }
  }

  lemma {:induction false} SameLive(a: map<EventId, TimerEvent>, b: map<EventId, TimerEvent>, q: seq<Entry>)
    requires a.Keys == b.Keys && forall id: EventId :: id in a ==> a[id].isCanceled == b[id].isCanceled
    ensures Live(a, q) == Live(b, q)
    decreases |q|
  {
    if q != [] {
      SameLive(a, b, q[1..]);
    }
  }
}
