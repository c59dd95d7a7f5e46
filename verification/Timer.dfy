/** The timer object: the queue edited in place, and the loops of its callback. */
module Timers {
  import opened TimerModel

  class EventTimer {
    var pending: seq<Entry>
    var events: map<EventId, TimerEvent>
    var arming: Arming
    ghost var fired: seq<Firing>

    ghost function Now(): Timer
      reads this
    {
      Timer(pending, events, arming, fired)
    }

    constructor ()
      ensures Now() == EMPTY
    {
      pending, events, arming, fired := [], map[], Disarmed, [];
    }

    method ResetTimerFd(nowTime: int)
      modifies this`arming
      ensures arming == if pending == [] then old(arming)
                        else Armed(nowTime, DelayFor(ArrivalOf(events, pending[0]), nowTime))
    {
      if pending == [] {
        return;
      }
      var earliestArriveTime := ArrivalOf(events, pending[0]);
      var interval := 0;
      if earliestArriveTime > nowTime {
        interval := earliestArriveTime - nowTime;
      } else {
        interval := 100;
      }
      arming := Armed(nowTime, interval);
    }

    /** `emplace` of the multimap: behind the last entry that is not later. */
    method Emplace(e: Entry)
      modifies this`pending
      ensures pending == Insert(old(pending), e)
    {
      var k := 0;
      while k < |pending| && pending[k].key <= e.key
        invariant 0 <= k <= |pending|
        invariant pending[..k] + Insert(pending[k..], e) == Insert(pending, e)
      {
        assert pending[k..][1..] == pending[k + 1..];
        assert pending[..k] + [pending[k]] == pending[..k + 1];
        k := k + 1;
      }
      assert Insert(pending[k..], e) == [e] + pending[k..];
      pending := pending[..k] + ([e] + pending[k..]);
    }

    /** The event already carries its arrival time when it is added. */
    method AddTimerEvent(a: Adding)
      modifies this`pending, this`events, this`arming
      ensures Now() == TimerModel.AddTimerEvent(old(Now()), a)
    {
      events := events[a.id := a.event];
      var needReset := false;
      if pending == [] {
        needReset := true;
      } else if a.event.arriveTime < ArrivalOf(events, pending[0]) {
        needReset := true;
      }
      Emplace(Entry(a.event.arriveTime, a.id));
      if needReset {
        ResetTimerFd(a.armNow);
      }
    }

    method AddEach(adds: seq<Adding>)
      modifies this`pending, this`events, this`arming
      ensures Now() == AddAll(old(Now()), adds)
    {
      hide TimerModel.AddTimerEvent;
      var k := 0;
      assert adds[0..] == adds;
      while k < |adds|
        invariant 0 <= k <= |adds| && fired == old(fired)
        invariant AddAll(Now(), adds[k..]) == AddAll(old(Now()), adds)
      {
        assert adds[k..][1..] == adds[k + 1..];
        AddTimerEvent(adds[k]);
        k := k + 1;
      }
    }

    /** Takes everything due off the queue; cancelled events are dropped. */
    method TakeDue(nowTime: int) returns (outDate: seq<Entry>)
      modifies this`pending
      ensures outDate == Due(old(Now()), nowTime) && pending == Left(old(Now()), nowTime)
    {
      outDate := [];
      var it := 0;
      ghost var k := DueCount(pending, nowTime);
      while it < |pending|
        invariant pending == old(pending) && k == DueCount(pending, nowTime) && 0 <= it <= k
        invariant outDate + Live(events, pending[it..k]) == Live(events, pending[..k])
      {
        DueGoesOn(pending, nowTime, it);
        if pending[it].key > nowTime {
          break;
        }
        assert pending[it..k][1..] == pending[it + 1..k];
        if !(pending[it].id in events && events[pending[it].id].isCanceled) {
          outDate := outDate + [pending[it]];
        }
        it := it + 1;
      }
      DueGoesOn(pending, nowTime, it);
      assert pending[it..k] == [];
      pending := pending[it..];
    }

    static lemma {:induction false} DueGoesOn(q: seq<Entry>, now: int, i: nat)
      requires i <= DueCount(q, now)
      ensures i < DueCount(q, now) <==> i < |q| && q[i].key <= now
    {
      var due := q[..DueCount(q, now)];
      assert i < |due| ==> due[i] == q[i] && due[i] in due;
    }

    /** Runs the callbacks of what was due and queues the repeated events again. `effects` is what the
        callbacks and the clock contribute. */
    method OnTimer(nowTime: int, effects: seq<Effect>)
      requires |effects| == |Due(Now(), nowTime)|
      modifies this
      ensures Now() == TimerModel.OnTimer(old(Now()), nowTime, effects)
    {
      var outDate := TakeDue(nowTime);
      ghost var start := Now();
      assert outDate[0..] == outDate && effects[0..] == effects;
      hide AddAll, Due, Left;
      var k := 0;
      while k < |outDate|
        invariant 0 <= k <= |outDate|
        invariant FireAll(Now(), outDate[k..], nowTime, effects[k..]) == FireAll(start, outDate, nowTime, effects)
      {
        assert outDate[k..][1..] == outDate[k + 1..] && effects[k..][1..] == effects[k + 1..];
        ghost var requeued := Requeued(events, outDate[k].id, effects[k]);
        var id := outDate[k].id;
        var repeats := id in events && events[id].isRepeated;
        fired := fired + [Firing(id, nowTime)];
        ghost var logged := Now();
        var again := if repeats then [Adding(id, ResetArriveTime(events[id], effects[k].resetNow), effects[k].armNow)]
                     else [];
        AddEach(effects[k].spawned);
        AddAllConcat(logged, effects[k].spawned, again);
        AddEach(again);
        k := k + 1;
      }
    }
  }
}
