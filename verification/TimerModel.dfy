/** The timer as a value: a queue ordered by arrival time, the events it refers to, the arming of the
    timer descriptor and a log of firings. */
module TimerModel {

  type EventId = nat

  /** `created` is the clock reading at construction; the program itself does not store it. */
  datatype TimerEvent = TimerEvent(arriveTime: int, interval: int, isRepeated: bool, isCanceled: bool, created: int)

  datatype Entry = Entry(key: int, id: EventId)

  /** `timerfd_settime` at a clock reading, with a relative delay. */
  datatype Arming = Disarmed | Armed(since: int, delay: int)

  datatype Firing = Firing(id: EventId, at: int)

  datatype Timer = Timer(pending: seq<Entry>, events: map<EventId, TimerEvent>, arming: Arming, fired: seq<Firing>)

  /** An event put into the queue, and the clock reading used if the descriptor is armed for it. */
  datatype Adding = Adding(id: EventId, event: TimerEvent, armNow: int)

  /** What happens around one callback: the new events it adds, the clock when its own event is given a
      new arrival time, and the clock if the descriptor is then armed. */
  datatype Effect = Effect(spawned: seq<Adding>, resetNow: int, armNow: int)

  // ---------------------------------------------------------------- the queue

  /** A multimap insertion: behind the entries with the same key. */
  function Insert(q: seq<Entry>, e: Entry): (r: seq<Entry>)
    ensures |r| == |q| + 1
  {
    if q == [] || e.key < q[0].key then [e] + q else [q[0]] + Insert(q[1..], e)
  }

  predicate Sorted(q: seq<Entry>) {
    q == [] || ((|q| > 1 ==> q[0].key <= q[1].key) && Sorted(q[1..]))
  }

  lemma {:induction false} HeadIsEarliest(q: seq<Entry>)
    requires Sorted(q)
    ensures forall e <- q :: q[0].key <= e.key
    decreases |q|
  {
    if q != [] {
      HeadIsEarliest(q[1..]);
      assert forall e <- q :: e == q[0] || e in q[1..];
    }
  }

  lemma {:induction false} InsertAdds(q: seq<Entry>, e: Entry)
    ensures multiset(Insert(q, e)) == multiset(q) + multiset{e}
    ensures Insert(q, e)[0] == if q == [] || e.key < q[0].key then e else q[0]
    decreases |q|
  {
    if q == [] || e.key < q[0].key {
      assert multiset([e] + q) == multiset{e} + multiset(q);
    } else {
      var r := Insert(q[1..], e);
      InsertAdds(q[1..], e);
      assert multiset([q[0]] + r) == multiset{q[0]} + multiset(r);
      assert q == [q[0]] + q[1..];
    }
  }

  lemma {:induction false} InsertAddsId(q: seq<Entry>, e: Entry)
    ensures IdsOf(Insert(q, e)) == IdsOf(q) + multiset{e.id}
    decreases |q|
  {
    if q == [] || e.key < q[0].key {
      assert ([e] + q)[1..] == q;
    } else {
      var r := Insert(q[1..], e);
      InsertAddsId(q[1..], e);
      assert ([q[0]] + r)[1..] == r;
    }
  }

  lemma {:induction false} InsertKeepsOrder(q: seq<Entry>, e: Entry)
    requires Sorted(q)
    ensures Sorted(Insert(q, e))
    decreases |q|
  {
    if q == [] || e.key < q[0].key {
      assert ([e] + q)[1..] == q;
    } else {
      var r := Insert(q[1..], e);
      InsertKeepsOrder(q[1..], e);
      InsertAdds(q[1..], e);
      assert ([q[0]] + r)[1..] == r;
    }
  }

  /** How often each event is in a queue. */
  function IdsOf(q: seq<Entry>): multiset<EventId> {
    if q == [] then multiset{} else multiset{q[0].id} + IdsOf(q[1..])
  }

  lemma {:induction false} IdsConcat(a: seq<Entry>, b: seq<Entry>)
    ensures IdsOf(a + b) == IdsOf(a) + IdsOf(b)
    decreases |a|
  {
    if a == [] {
      assert a + b == b;
    } else {
      assert (a + b)[1..] == a[1..] + b;
      IdsConcat(a[1..], b);
    }
  }

  lemma {:induction false} HeldIds(q: seq<Entry>, id: EventId)
    ensures id in IdsOf(q) <==> exists e :: e in q && e.id == id
    decreases |q|
  {
    if q != [] {
      HeldIds(q[1..], id);
      assert q == [q[0]] + q[1..];
    }
  }

  /** How many leading entries are due. */
  function DueCount(q: seq<Entry>, now: int): (k: nat)
    ensures k <= |q| && (forall e <- q[..k] :: e.key <= now) && (k < |q| ==> now < q[k].key)
  {
    if q == [] || now < q[0].key then 0 else
      var k := DueCount(q[1..], now);
      assert q[..k + 1] == [q[0]] + q[1..][..k];
      k + 1
  }

  function Live(events: map<EventId, TimerEvent>, q: seq<Entry>): seq<Entry> {
    if q == [] then []
    else if q[0].id in events && events[q[0].id].isCanceled then Live(events, q[1..])
    else [q[0]] + Live(events, q[1..])
  }

  // ---------------------------------------------------------------- operations

  /** The delay to the earliest arrival, or 100 ms when that has passed. */
  function DelayFor(arriveTime: int, now: int): int {
    if arriveTime > now then arriveTime - now else 100
  }

  /** The arrival time that an entry's event has now, which need not be the entry's key. */
  function ArrivalOf(events: map<EventId, TimerEvent>, e: Entry): int {
    if e.id in events then events[e.id].arriveTime else e.key
  }

  function AddTimerEvent(t: Timer, a: Adding): Timer {
    var events := t.events[a.id := a.event];
    var q := Insert(t.pending, Entry(a.event.arriveTime, a.id));
    var needReset := t.pending == [] || a.event.arriveTime < ArrivalOf(events, t.pending[0]);
    t.(pending := q, events := events,
       arming := if needReset then Armed(a.armNow, DelayFor(ArrivalOf(events, q[0]), a.armNow)) else t.arming)
  }

  function AddAll(t: Timer, adds: seq<Adding>): Timer
    decreases |adds|
  {
    if adds == [] then t else AddAll(AddTimerEvent(t, adds[0]), adds[1..])
  }

  function ResetArriveTime(e: TimerEvent, now: int): TimerEvent {
    e.(arriveTime := now + e.interval)
  }

  /** The events queued around the k-th firing: those its callback adds, then its own when it repeats. */
  function Requeued(events: map<EventId, TimerEvent>, id: EventId, effect: Effect): seq<Adding> {
    effect.spawned
    + if id in events && events[id].isRepeated
      then [Adding(id, ResetArriveTime(events[id], effect.resetNow), effect.armNow)] else []
  }

  function FireAll(t: Timer, due: seq<Entry>, now: int, effects: seq<Effect>): Timer
    requires |effects| == |due|
    decreases |due|
  {
    if due == [] then t else
      var fired := t.(fired := t.fired + [Firing(due[0].id, now)]);
      FireAll(AddAll(fired, Requeued(t.events, due[0].id, effects[0])), due[1..], now, effects[1..])
  }

  function Due(t: Timer, now: int): seq<Entry> {
    Live(t.events, t.pending[..DueCount(t.pending, now)])
  }

  function Left(t: Timer, now: int): seq<Entry> {
    t.pending[DueCount(t.pending, now)..]
  }

  /** The timer callback at clock reading `now`. */
  function OnTimer(t: Timer, now: int, effects: seq<Effect>): Timer
    requires |effects| == |Due(t, now)|
  {
    FireAll(t.(pending := Left(t, now)), Due(t, now), now, effects)
  }

  // ---------------------------------------------------------------- one callback of the timer

  function Log(due: seq<Entry>, now: int): seq<Firing> {
    if due == [] then [] else [Firing(due[0].id, now)] + Log(due[1..], now)
  }

  /** Everything queued during a callback of the timer, given the events as they are when it starts. */
  function Additions(events: map<EventId, TimerEvent>, due: seq<Entry>, effects: seq<Effect>): seq<Adding>
    requires |effects| == |due|
  {
    if due == [] then []
    else Requeued(events, due[0].id, effects[0]) + Additions(events, due[1..], effects[1..])
  }

  ghost predicate AddsNone(adds: seq<Adding>, id: EventId) {
    forall a <- adds :: a.id != id
  }

  /** The due events are different ones, and callbacks add none of them. */
  ghost predicate Separate(due: seq<Entry>, effects: seq<Effect>)
    requires |effects| == |due|
  {
    && (forall i, j :: 0 <= i < j < |due| ==> due[i].id != due[j].id)
    && (forall i, j :: 0 <= i < |due| && 0 <= j < |due| ==> AddsNone(effects[i].spawned, due[j].id))
  }

  lemma {:induction false} AddAllConcat(t: Timer, a: seq<Adding>, b: seq<Adding>)
    ensures AddAll(t, a + b) == AddAll(AddAll(t, a), b)
    decreases |a|
  {
    if a == [] {
      assert a + b == b;
    } else {
      assert (a + b)[1..] == a[1..] + b;
      AddAllConcat(AddTimerEvent(t, a[0]), a[1..], b);
    }
  }

  lemma {:induction false} AddAllKeeps(t: Timer, adds: seq<Adding>, fired: seq<Firing>)
    ensures AddAll(t.(fired := fired), adds) == AddAll(t, adds).(fired := fired)
    ensures AddAll(t, adds).fired == t.fired
    ensures forall id :: AddsNone(adds, id) && id in t.events ==>
                           id in AddAll(t, adds).events && AddAll(t, adds).events[id] == t.events[id]
    decreases |adds|
  {
    if adds != [] {
      AddAllKeeps(AddTimerEvent(t, adds[0]), adds[1..], fired);
    }
  }

  lemma {:induction false} RequeuedIsSeparate(events: map<EventId, TimerEvent>, due: seq<Entry>, effects: seq<Effect>)
    requires |effects| == |due| > 0 && Separate(due, effects)
    ensures forall d <- due[1..] :: AddsNone(Requeued(events, due[0].id, effects[0]), d.id)
    ensures Separate(due[1..], effects[1..])
  {
    forall d <- due[1..] ensures AddsNone(Requeued(events, due[0].id, effects[0]), d.id) {
      var j :| 1 <= j < |due| && due[j] == d;
    }
  }

  lemma {:induction false} AddedKeepDue(t: Timer, first: seq<Adding>, events: map<EventId, TimerEvent>, due: seq<Entry>)
    requires forall d <- due :: d.id in t.events && d.id in events && t.events[d.id] == events[d.id]
    requires forall d <- due :: AddsNone(first, d.id)
    ensures forall d <- due :: d.id in AddAll(t, first).events && AddAll(t, first).events[d.id] == events[d.id]
  {
    hide AddTimerEvent, AddAll;
    AddAllKeeps(t, first, t.fired);
  }

  lemma {:induction false} LogUnfolds(fired: seq<Firing>, due: seq<Entry>, now: int)
    requires due != []
    ensures fired + Log(due, now) == fired + [Firing(due[0].id, now)] + Log(due[1..], now)
  {
  }

  /** A callback of the timer fires exactly the live due entries, each once and in queue order, and
      leaves what it would leave had everything it queues been added to the entries that are not due. */
  lemma {:induction false} FiringIsAdding(t: Timer, events: map<EventId, TimerEvent>, due: seq<Entry>, now: int,
                                          effects: seq<Effect>)
    requires |effects| == |due| && Separate(due, effects)
    requires forall d <- due :: d.id in t.events && d.id in events && t.events[d.id] == events[d.id]
    ensures FireAll(t, due, now, effects)
            == AddAll(t.(fired := t.fired + Log(due, now)), Additions(events, due, effects))
    decreases |due|
  {
    if due == [] {
      assert t.fired + Log(due, now) == t.fired;
    } else {
      hide AddTimerEvent, Requeued, AddAll, Log;
      assert due[0] in due && t.events[due[0].id] == events[due[0].id];
      var first := Requeued(t.events, due[0].id, effects[0]);
      SameRequeued(t.events, events, due[0].id, effects[0]);
      var rest := Additions(events, due[1..], effects[1..]);
      var logged := t.(fired := t.fired + [Firing(due[0].id, now)]);
      var next := AddAll(logged, first);
      var log := t.fired + Log(due, now);
      RequeuedIsSeparate(t.events, due, effects);
      AddedKeepDue(logged, first, events, due[1..]);
      LogUnfolds(t.fired, due, now);
      hide Separate, AddsNone;
      AddAllKeeps(logged, first, log);
      FiringIsAdding(next, events, due[1..], now, effects[1..]);
      AddAllConcat(t.(fired := log), first, rest);
    }
  }

  lemma {:induction false} SameRequeued(a: map<EventId, TimerEvent>, b: map<EventId, TimerEvent>, id: EventId,
                                        effect: Effect)
    requires id in a && id in b && a[id] == b[id]
    ensures Requeued(a, id, effect) == Requeued(b, id, effect)
  {
  }

  // ---------------------------------------------------------------- invariants over runs

  function Count(fired: seq<Firing>, id: EventId): nat {
    if fired == [] then 0
    else Count(fired[..|fired| - 1], id) + if fired[|fired| - 1].id == id then 1 else 0
  }

  /** The earliest time for the n-th firing of an event. */
  function Turn(e: TimerEvent, n: nat): int { e.created + n * e.interval }

  /** An event in step with the log: `held` is how often it is queued or about to fire. A one-shot event
      is held until it has fired once; a repeated one is always held, once; and the next firing is not
      due before its turn, counted from the creation of the event. */
  ghost predicate InStep(e: TimerEvent, held: nat, firings: nat) {
    && !e.isCanceled
    && (if e.isRepeated then held == 1 else held + firings == 1)
    && (held > 0 ==> Turn(e, firings + 1) <= e.arriveTime)
  }

  ghost predicate Keyed(events: map<EventId, TimerEvent>, q: seq<Entry>) {
    forall e <- q :: e.id in events && e.key == events[e.id].arriveTime
  }

  /** The k-th firing of an event is no earlier than k intervals after its creation. */
  ghost predicate NoneEarly(events: map<EventId, TimerEvent>, fired: seq<Firing>) {
    forall k :: 0 <= k < |fired| ==> InTime(events, fired, k)
  }

  ghost predicate InTime(events: map<EventId, TimerEvent>, fired: seq<Firing>, k: nat)
    requires k < |fired|
  {
    && fired[k].id in events
    && var e := events[fired[k].id];
       Turn(e, Count(fired[..k + 1], fired[k].id)) <= fired[k].at
  }

  ghost predicate AllInStep(events: map<EventId, TimerEvent>, held: multiset<EventId>, fired: seq<Firing>) {
    forall id: EventId ::
      if id in events then InStep(events[id], held[id], Count(fired, id))
      else held[id] == 0 && Count(fired, id) == 0
  }

  /** `hand` are entries taken off the queue that have yet to fire. */
  ghost predicate TimerInv(t: Timer, hand: seq<Entry>) {
    && Sorted(t.pending) && Keyed(t.events, t.pending) && Keyed(t.events, hand)
    && NoneEarly(t.events, t.fired)
    && AllInStep(t.events, IdsOf(hand) + IdsOf(t.pending), t.fired)
  }

  /** A newly constructed event that the timer does not know yet. */
  ghost predicate New(t: Timer, a: Adding) {
    && a.id !in t.events && !a.event.isCanceled
    && a.event.arriveTime == a.event.created + a.event.interval
  }

  ghost predicate AllNew(t: Timer, adds: seq<Adding>)
    decreases |adds|
  {
    adds != [] ==> New(t, adds[0]) && AllNew(AddTimerEvent(t, adds[0]), adds[1..])
  }

  lemma {:induction false} InsertKeepsKeyed(events: map<EventId, TimerEvent>, q: seq<Entry>, id: EventId,
                                            event: TimerEvent)
    requires Keyed(events, q) && id !in IdsOf(q)
    ensures Keyed(events[id := event], q)
    ensures Keyed(events[id := event], Insert(q, Entry(event.arriveTime, id)))
  {
    HeldIds(q, id);
    var e := Entry(event.arriveTime, id);
    InsertAdds(q, e);
    forall x <- Insert(q, e) ensures x == e || x in q {
      assert x in multiset(Insert(q, e));
    }
  }

  lemma {:induction false} NewIsInStep(events: map<EventId, TimerEvent>, held: multiset<EventId>, fired: seq<Firing>,
                                       a: Adding)
    requires AllInStep(events, held, fired) && NoneEarly(events, fired)
    requires a.id !in events && !a.event.isCanceled && a.event.arriveTime == a.event.created + a.event.interval
    ensures AllInStep(events[a.id := a.event], held + multiset{a.id}, fired)
    ensures NoneEarly(events[a.id := a.event], fired) && held[a.id] == 0
  {
    assert Count(fired, a.id) == 0;
    var later := events[a.id := a.event];
    forall k | 0 <= k < |fired| ensures InTime(later, fired, k) {
      assert InTime(events, fired, k);
    }
  }

  lemma {:induction false} AddingNewKeepsInv(t: Timer, hand: seq<Entry>, a: Adding)
    requires TimerInv(t, hand) && New(t, a)
    ensures TimerInv(AddTimerEvent(t, a), hand)
  {
    hide Sorted, Keyed, Insert, IdsOf, Count, NoneEarly, AllInStep;
    var e := Entry(a.event.arriveTime, a.id);
    NewIsInStep(t.events, IdsOf(hand) + IdsOf(t.pending), t.fired, a);
    InsertAddsId(t.pending, e);
    InsertKeepsOrder(t.pending, e);
    InsertKeepsKeyed(t.events, t.pending, a.id, a.event);
    InsertKeepsKeyed(t.events, hand, a.id, a.event);
    assert IdsOf(hand) + IdsOf(t.pending) + multiset{a.id} == IdsOf(hand) + (IdsOf(t.pending) + multiset{a.id});
  }

  lemma {:induction false} AddingAllNewKeepsInv(t: Timer, hand: seq<Entry>, adds: seq<Adding>)
    requires TimerInv(t, hand) && AllNew(t, adds)
    ensures TimerInv(AddAll(t, adds), hand)
    decreases |adds|
  {
    hide AddTimerEvent, TimerInv, New;
    if adds != [] {
      AddingNewKeepsInv(t, hand, adds[0]);
      AddingAllNewKeepsInv(AddTimerEvent(t, adds[0]), hand, adds[1..]);
    }
  }

  lemma {:induction false} CountLogged(fired: seq<Firing>, f: Firing)
    ensures forall id: EventId :: Count(fired + [f], id) == Count(fired, id) + if f.id == id then 1 else 0
  {
    assert (fired + [f])[..|fired|] == fired;
  }

  lemma {:induction false} LoggedInTime(events: map<EventId, TimerEvent>, fired: seq<Firing>, f: Firing)
    requires NoneEarly(events, fired) && f.id in events
    requires Turn(events[f.id], Count(fired, f.id) + 1) <= f.at
    ensures NoneEarly(events, fired + [f])
  {
    hide Turn, Count;
    CountLogged(fired, f);
    var after := fired + [f];
    forall k | 0 <= k < |after| ensures InTime(events, after, k) {
      if k < |fired| {
        assert InTime(events, fired, k) && after[..k + 1] == fired[..k + 1];
      } else {
        assert after[..k + 1] == after;
      }
    }
  }

  /** The event gets a new arrival time; its creation, interval and kind stay. */
  lemma {:induction false} ResetKeepsTiming(events: map<EventId, TimerEvent>, fired: seq<Firing>, id: EventId, now: int)
    requires NoneEarly(events, fired) && id in events
    ensures NoneEarly(events[id := ResetArriveTime(events[id], now)], fired)
  {
    var later := events[id := ResetArriveTime(events[id], now)];
    forall k | 0 <= k < |fired| ensures InTime(later, fired, k) {
      assert InTime(events, fired, k);
    }
  }

  lemma {:induction false} InHandOnce(t: Timer, hand: seq<Entry>, d: Entry)
    requires TimerInv(t, [d] + hand)
    ensures d.id in t.events && t.events[d.id].arriveTime == d.key
    ensures d.id !in IdsOf(hand) && d.id !in IdsOf(t.pending)
    ensures InStep(t.events[d.id], 1, Count(t.fired, d.id))
    ensures IdsOf([d] + hand) == multiset{d.id} + IdsOf(hand)
  {
    assert d in [d] + hand;
    assert ([d] + hand)[1..] == hand;
    assert InStep(t.events[d.id], (IdsOf([d] + hand) + IdsOf(t.pending))[d.id], Count(t.fired, d.id));
  }

  lemma {:induction false} OthersStayInStep(events: map<EventId, TimerEvent>, events': map<EventId, TimerEvent>,
                                            held: multiset<EventId>, held': multiset<EventId>, fired: seq<Firing>,
                                            f: Firing)
    requires AllInStep(events, held, fired) && f.id in events && events'.Keys == events.Keys
    requires forall id: EventId :: id in events && id != f.id ==> events'[id] == events[id]
    requires forall id: EventId :: id != f.id ==> held'[id] == held[id]
    requires InStep(events'[f.id], held'[f.id], Count(fired, f.id) + 1)
    ensures AllInStep(events', held', fired + [f])
  {
    CountLogged(fired, f);
    forall id: EventId
      ensures if id in events' then InStep(events'[id], held'[id], Count(fired + [f], id))
              else held'[id] == 0 && Count(fired + [f], id) == 0
    {
      assert if id in events then InStep(events[id], held[id], Count(fired, id))
             else held[id] == 0 && Count(fired, id) == 0;
    }
  }

  lemma {:induction false} FiringOneShotKeepsInv(t: Timer, hand: seq<Entry>, d: Entry, now: int)
    requires TimerInv(t, [d] + hand) && d.key <= now && d.id in t.events && !t.events[d.id].isRepeated
    ensures TimerInv(t.(fired := t.fired + [Firing(d.id, now)]), hand)
  {
    InHandOnce(t, hand, d);
    hide IdsOf, Count, NoneEarly, AllInStep, Sorted, Turn;
    var f := Firing(d.id, now);
    LoggedInTime(t.events, t.fired, f);
    OthersStayInStep(t.events, t.events, IdsOf([d] + hand) + IdsOf(t.pending), IdsOf(hand) + IdsOf(t.pending),
                     t.fired, f);
    assert forall e <- hand :: e in [d] + hand;
  }

  lemma {:induction false} NextTurn(e: TimerEvent, n: nat, now: int, resetNow: int)
    requires InStep(e, 1, n) && e.isRepeated && e.arriveTime <= now <= resetNow
    ensures InStep(ResetArriveTime(e, resetNow), 1, n + 1)
  {
    assert (n + 2) * e.interval == (n + 1) * e.interval + e.interval;
  }

  lemma {:induction false} FiredRepeatedIsInStep(t: Timer, hand: seq<Entry>, d: Entry, now: int, resetNow: int)
    requires TimerInv(t, [d] + hand) && d.key <= now <= resetNow && d.id in t.events && t.events[d.id].isRepeated
    ensures var events := t.events[d.id := ResetArriveTime(t.events[d.id], resetNow)];
            var fired := t.fired + [Firing(d.id, now)];
            && AllInStep(events, IdsOf(hand) + (IdsOf(t.pending) + multiset{d.id}), fired)
            && NoneEarly(events, fired)
  {
    InHandOnce(t, hand, d);
    hide IdsOf, Count, NoneEarly, AllInStep, Sorted, Keyed, Turn;
    var f := Firing(d.id, now);
    var events := t.events[d.id := ResetArriveTime(t.events[d.id], resetNow)];
    NextTurn(t.events[d.id], Count(t.fired, d.id), now, resetNow);
    LoggedInTime(t.events, t.fired, f);
    ResetKeepsTiming(t.events, t.fired + [f], d.id, resetNow);
    hide InStep;
    OthersStayInStep(t.events, events, IdsOf([d] + hand) + IdsOf(t.pending),
                     IdsOf(hand) + (IdsOf(t.pending) + multiset{d.id}), t.fired, f);
  }

  lemma {:induction false} FiringRepeatedKeepsInv(t: Timer, hand: seq<Entry>, d: Entry, now: int, resetNow: int,
                                                  armNow: int)
    requires TimerInv(t, [d] + hand) && d.key <= now <= resetNow && d.id in t.events && t.events[d.id].isRepeated
    ensures TimerInv(AddTimerEvent(t.(fired := t.fired + [Firing(d.id, now)]),
                                   Adding(d.id, ResetArriveTime(t.events[d.id], resetNow), armNow)), hand)
  {
    hide IdsOf, Count, NoneEarly, AllInStep, Sorted, Keyed, Insert, InStep, DelayFor, ArrivalOf, ResetArriveTime;
    FiredRepeatedIsInStep(t, hand, d, now, resetNow);
    InHandOnce(t, hand, d);
    var event := ResetArriveTime(t.events[d.id], resetNow);
    KeyedTail(t.events, d, hand);
    InsertKeepsKeyed(t.events, t.pending, d.id, event);
    InsertKeepsKeyed(t.events, hand, d.id, event);
    InsertKeepsOrder(t.pending, Entry(event.arriveTime, d.id));
    InsertAddsId(t.pending, Entry(event.arriveTime, d.id));
  }

  lemma {:induction false} KeyedTail(events: map<EventId, TimerEvent>, d: Entry, hand: seq<Entry>)
    requires Keyed(events, [d] + hand)
    ensures Keyed(events, hand)
  {
    assert forall e <- hand :: e in [d] + hand;
  }

  /** Callbacks add only newly constructed events, and the clock does not run backwards. */
  ghost predicate Proper(t: Timer, due: seq<Entry>, now: int, effects: seq<Effect>)
    requires |effects| == |due|
    decreases |due|
  {
    due != [] ==>
      && now <= effects[0].resetNow && AllNew(t, effects[0].spawned)
      && var fired := t.(fired := t.fired + [Firing(due[0].id, now)]);
         Proper(AddAll(fired, Requeued(t.events, due[0].id, effects[0])), due[1..], now, effects[1..])
  }

  lemma {:induction false} NewAreOthers(t: Timer, adds: seq<Adding>, id: EventId)
    requires AllNew(t, adds) && id in t.events
    ensures AddsNone(adds, id)
    decreases |adds|
  {
    if adds != [] {
      NewAreOthers(AddTimerEvent(t, adds[0]), adds[1..], id);
      assert forall a <- adds :: a == adds[0] || a in adds[1..];
    }
  }

  lemma {:induction false} AddOne(t: Timer, a: Adding)
    ensures AddAll(t, [a]) == AddTimerEvent(t, a)
  {
    assert [a][1..] == [];
  }

  lemma {:induction false} FiringKeepsInv(t: Timer, d: Entry, hand: seq<Entry>, now: int, effect: Effect)
    requires TimerInv(t, [d] + hand) && d.key <= now <= effect.resetNow && AllNew(t, effect.spawned)
    ensures TimerInv(AddAll(t.(fired := t.fired + [Firing(d.id, now)]), Requeued(t.events, d.id, effect)), hand)
  {
    InHandOnce(t, hand, d);
    hide TimerInv, AddTimerEvent, IdsOf, Count, InStep, AllNew, Turn, AddAll, ResetArriveTime, AddsNone;
    var log := t.fired + [Firing(d.id, now)];
    var spawned := AddAll(t, effect.spawned);
    AddingAllNewKeepsInv(t, [d] + hand, effect.spawned);
    NewAreOthers(t, effect.spawned, d.id);
    AddAllKeeps(t, effect.spawned, log);
    if t.events[d.id].isRepeated {
      var again := Adding(d.id, ResetArriveTime(t.events[d.id], effect.resetNow), effect.armNow);
      AddAllConcat(t.(fired := log), effect.spawned, [again]);
      AddOne(spawned.(fired := log), again);
      FiringRepeatedKeepsInv(spawned, hand, d, now, effect.resetNow, effect.armNow);
    } else {
      assert effect.spawned + [] == effect.spawned;
      FiringOneShotKeepsInv(spawned, hand, d, now);
    }
  }

  lemma {:induction false} FiringAllKeepsInv(t: Timer, due: seq<Entry>, now: int, effects: seq<Effect>)
    requires TimerInv(t, due) && |effects| == |due| && Proper(t, due, now, effects)
    requires forall d <- due :: d.key <= now
    ensures TimerInv(FireAll(t, due, now, effects), [])
    decreases |due|
  {
    hide TimerInv, AddTimerEvent, AllNew, Requeued, AddAll;
    if due != [] {
      assert due == [due[0]] + due[1..];
      FiringKeepsInv(t, due[0], due[1..], now, effects[0]);
      var fired := t.(fired := t.fired + [Firing(due[0].id, now)]);
      FiringAllKeepsInv(AddAll(fired, Requeued(t.events, due[0].id, effects[0])), due[1..], now, effects[1..]);
    }
  }

  lemma {:induction false} NoneCanceledAllLive(events: map<EventId, TimerEvent>, q: seq<Entry>)
    requires forall e <- q :: e.id in events && !events[e.id].isCanceled
    ensures Live(events, q) == q
    decreases |q|
  {
    if q != [] {
      NoneCanceledAllLive(events, q[1..]);
      assert q == [q[0]] + q[1..];
    }
  }

  lemma {:induction false} SortedDrop(q: seq<Entry>, k: nat)
    requires Sorted(q) && k <= |q|
    ensures Sorted(q[k..])
    decreases k
  {
    if k > 0 {
      SortedDrop(q[1..], k - 1);
      assert q[1..][k - 1..] == q[k..];
    }
  }

  lemma {:induction false} HeldIsLive(t: Timer, e: Entry)
    requires TimerInv(t, []) && e in t.pending
    ensures e.id in t.events && !t.events[e.id].isCanceled
  {
    hide Sorted, Count, NoneEarly, IdsOf;
    assert if e.id in t.events then InStep(t.events[e.id], (IdsOf([]) + IdsOf(t.pending))[e.id], Count(t.fired, e.id))
           else (IdsOf([]) + IdsOf(t.pending))[e.id] == 0;
  }

  lemma {:induction false} KeyedParts(events: map<EventId, TimerEvent>, q: seq<Entry>, k: nat)
    requires Keyed(events, q) && k <= |q|
    ensures Keyed(events, q[..k]) && Keyed(events, q[k..]) && Keyed(events, [])
  {
  }

  /** The due entries are those with a key up to now; what is left is later than now. */
  lemma {:induction false} DuePartition(t: Timer, now: int)
    requires TimerInv(t, [])
    ensures t.pending == Due(t, now) + Left(t, now)
    ensures (forall d <- Due(t, now) :: d.key <= now) && (forall e <- Left(t, now) :: now < e.key)
    ensures TimerInv(t.(pending := Left(t, now)), Due(t, now))
  {
    hide Sorted, Count, NoneEarly, IdsOf, AllInStep, Keyed, Live;
    var k := DueCount(t.pending, now);
    KeyedParts(t.events, t.pending, k);
    var front, left := t.pending[..k], t.pending[k..];
    assert t.pending == front + left;
    forall e <- front ensures e.id in t.events && !t.events[e.id].isCanceled {
      HeldIsLive(t, e);
    }
    NoneCanceledAllLive(t.events, front);
    SortedDrop(t.pending, k);
    HeadIsEarliest(left);
    IdsConcat(front, left);
    IdsConcat([], t.pending);
    assert [] + t.pending == t.pending;
  }

  lemma {:induction false} OnTimerKeepsInv(t: Timer, now: int, effects: seq<Effect>)
    requires TimerInv(t, []) && |effects| == |Due(t, now)|
    requires Proper(t.(pending := Left(t, now)), Due(t, now), now, effects)
    ensures TimerInv(OnTimer(t, now, effects), [])
  {
    hide TimerInv, Due, Left;
    DuePartition(t, now);
    FiringAllKeepsInv(t.(pending := Left(t, now)), Due(t, now), now, effects);
  }

  // ---------------------------------------------------------------- whole runs

  datatype Op = Add(adding: Adding) | Expire | Tick(now: int, effects: seq<Effect>)

  ghost predicate Legal(t: Timer, op: Op) {
    match op
    case Add(a) => New(t, a)
    case Expire => true
    case Tick(now, effects) =>
      |effects| == |Due(t, now)| && Proper(t.(pending := Left(t, now)), Due(t, now), now, effects)
  }

  function Apply(t: Timer, op: Op): Timer {
    match op
    case Add(a) => AddTimerEvent(t, a)
    case Expire => t.(arming := Disarmed)
    case Tick(now, effects) => if |effects| == |Due(t, now)| then OnTimer(t, now, effects) else t
  }

  const EMPTY: Timer := Timer([], map[], Disarmed, [])

  ghost predicate LegalRun(t: Timer, ops: seq<Op>)
    decreases |ops|
  {
    ops != [] ==> Legal(t, ops[0]) && LegalRun(Apply(t, ops[0]), ops[1..])
  }

  function Run(t: Timer, ops: seq<Op>): Timer
    decreases |ops|
  {
    if ops == [] then t else Run(Apply(t, ops[0]), ops[1..])
  }

  lemma {:induction false} OpKeepsInv(t: Timer, op: Op)
    requires TimerInv(t, []) && Legal(t, op)
    ensures TimerInv(Apply(t, op), [])
  {
    match op
    case Add(a) => AddingNewKeepsInv(t, [], a);
    case Expire =>
    case Tick(now, effects) => OnTimerKeepsInv(t, now, effects);
  }

  lemma {:induction false} RunKeepsInv(t: Timer, ops: seq<Op>)
    requires TimerInv(t, []) && LegalRun(t, ops)
    ensures TimerInv(Run(t, ops), [])
    decreases |ops|
  {
    hide TimerInv, Legal, Apply;
    if ops != [] {
      OpKeepsInv(t, ops[0]);
      RunKeepsInv(Apply(t, ops[0]), ops[1..]);
    }
  }

  /** Whatever is added and whenever the timer ticks: a one-shot event fires at most once, and is queued
      exactly until then; a repeated event is always queued exactly once; and the k-th firing of any event
      is no earlier than its creation plus k intervals. */
  lemma {:induction false} EventsKeepTheirTurns(ops: seq<Op>, id: EventId)
    requires LegalRun(EMPTY, ops)
    ensures var t := Run(EMPTY, ops);
            && Sorted(t.pending) && Keyed(t.events, t.pending)
            && (id in t.events ==>
                  if t.events[id].isRepeated then IdsOf(t.pending)[id] == 1
                  else IdsOf(t.pending)[id] + Count(t.fired, id) == 1)
            && (id !in t.events ==> IdsOf(t.pending)[id] == Count(t.fired, id) == 0)
            && NoneEarly(t.events, t.fired)
  {
    assert TimerInv(EMPTY, []);
    RunKeepsInv(EMPTY, ops);
    var t := Run(EMPTY, ops);
    assert IdsOf([]) + IdsOf(t.pending) == IdsOf(t.pending);
    assert if id in t.events then InStep(t.events[id], IdsOf(t.pending)[id], Count(t.fired, id))
           else IdsOf(t.pending)[id] == 0 && Count(t.fired, id) == 0;
  }
}
