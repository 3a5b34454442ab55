/**
 The queue object itself: the methods of net/timer_queue.cc, updating their fields in place.

 What a callback does is a list of `Add` and `Cancel` events, run right after its timer's turn.
 */
module TimerLoop {
  import opened Outcomes
  import opened Timers
  import TimerSchedules

  // The events of one handleRead: each expired timer runs, then its callback's actions.
  function Turns(script: seq<seq<Event>>, i: nat, time: int): (es: seq<Event>)
    requires i <= |script|
    decreases |script| - i
  {
    if i == |script| then [End(time)] else [RunNext] + script[i] + Turns(script, i + 1, time)
  }

  // Callbacks only add and cancel.
  predicate CallbackScript(script: seq<seq<Event>>) {
    forall i, j :: 0 <= i < |script| && 0 <= j < |script[i]| ==> script[i][j].Add? || script[i][j].Cancel?
  }

  class TimerQueue {
    var heap: map<nat, Timer>
    var created: int
    var timers: seq<Entry>
    var active: set<TimerId>
    var calling: bool
    var canceling: set<TimerId>
    var timerfd: Deadline
    ghost var armedAt: int
    ghost var batch: seq<Entry>
    ghost var next: nat
    ghost var batchTime: int
    ghost var fired: seq<int>
    ghost var freed: seq<int>

    ghost function Abs(): Queue
      reads this
    {
      Queue(heap, created, timers, active, calling, canceling, batch, next, batchTime, timerfd, armedAt, fired, freed)
    }

    constructor ()
      ensures Abs() == EMPTY && Inv(Abs())
    {
      heap, created, timers, active := map[], 0, [], {};
      calling, canceling, timerfd := false, {}, Disarmed;
      armedAt, batch, next, batchTime, fired, freed := 0, [], 0, 0, [], [];
    }

    method SetTimerfd(when: int, now: int)
      modifies this
      ensures Abs() == Timers.ResetTimerfd(old(Abs()), when, now)
    {
      var ts := HowMuchTimeFromNow(when, now);
      timerfd := ArmedFor(now + ts.0 * 1000000 + ts.1 / 1000);
      armedAt := now;
    }

    method InsertInLoop(addr: nat) returns (earliestChanged: bool)
      requires InsertTimer(Abs(), addr).Ok?
      modifies this
      ensures Abs() == InsertTimer(old(Abs()), addr).value
      ensures earliestChanged == EarliestChanged(old(Abs()), old(heap)[addr].expiration)
    {
      earliestChanged := false;
      var when := heap[addr].expiration;
      if timers == [] || when < timers[0].when {
        earliestChanged := true;
      }
      timers := Insert(timers, Entry(when, addr));
      active := active + {TimerId(addr, heap[addr].sequence)};
    }

    method AddTimerInLoop(addr: nat, when: int, interval: int, time: int) returns (id: TimerId)
      requires Inv(Abs()) && Admissible(Abs(), Add(addr, when, interval, time))
      modifies this
      ensures Step(old(Abs()), Add(addr, when, interval, time)) == Ok(Abs()) && Inv(Abs())
      ensures id in active && id == TimerId(addr, created) && created == old(created) + 1
      ensures addr in heap && heap[addr] == Timer(when, interval, created) && Entry(when, addr) in timers
    {
      hide Inv, Insert, HowMuchTimeFromNow;
      TimerSchedules.AddedIs(Abs(), addr, when, interval, time);
      StepSafe(Abs(), Add(addr, when, interval, time));
      created := created + 1;
      heap := heap[addr := Timer(when, interval, created)];
      var earliestChanged := InsertInLoop(addr);
      if earliestChanged {
        SetTimerfd(heap[addr].expiration, time);
      }
      id := TimerId(addr, created);
    }

    method CancelInLoop(id: TimerId)
      requires Inv(Abs())
      modifies this
      ensures Step(old(Abs()), Cancel(id)) == Ok(Abs()) && Inv(Abs())
    {
      hide Inv, Erase;
      StepSafe(Abs(), Cancel(id));
      if id in active {
        timers := Erase(timers, Entry(heap[id.addr].expiration, id.addr));
        freed := freed + [heap[id.addr].sequence];
        heap := heap - {id.addr};
        active := active - {id};
      } else if calling {
        canceling := canceling + {id};
      }
    }

    method TakeExpired(now: int) returns (expired: seq<Entry>)
      requires GetExpired(Abs(), now).Ok?
      modifies this
      ensures GetExpired(old(Abs()), now) == Ok((Abs(), expired))
      ensures |expired| == LowerBound(old(timers), Entry(now, PTR_MAX))
    {
      var k := LowerBound(timers, Entry(now, PTR_MAX));
      expired := timers[..k];
      timers := timers[k..];
      ghost var goal := Deactivate(Abs(), expired);
      assert expired[0..] == expired;
      for i := 0 to |expired|
        invariant Deactivate(Abs(), expired[i..]) == goal && goal.Ok?
        invariant Abs() == old(Abs()).(timers := timers, active := active) && timers == old(timers)[k..]
      {
        var timer := TimerId(expired[i].addr, heap[expired[i].addr].sequence);
        assert expired[i..][1..] == expired[i + 1..];
        active := active - {timer};
      }
    }

    // One round of the loop in reset.
    method ResetTimer(addr: nat, now: int)
      requires batch != [] && addr == batch[0].addr && now == batchTime && ResetOne(Abs()).Ok?
      modifies this
      ensures ResetOne(old(Abs())) == Ok(Abs())
    {
      var timer := TimerId(addr, heap[addr].sequence);
      batch := batch[1..];
      if heap[addr].interval > 0 && timer !in canceling {
        heap := heap[addr := heap[addr].(expiration := now + heap[addr].interval)];
        var changed := InsertInLoop(addr);
      } else {
        freed := freed + [heap[addr].sequence];
        heap := heap - {addr};
      }
    }

    // reset: reschedules or deletes every timer of the batch, then arms the timerfd.
    method ResetBatch(expired: seq<Entry>, now: int, time: int)
      requires Inv(Abs()) && calling && next == |batch| && expired == batch && now == batchTime
      modifies this
      ensures Step(old(Abs()), End(time)) == Ok(Abs()) && Inv(Abs()) && !calling
    {
      hide Inv, ResetOne;
      StepSafe(Abs(), End(time));
      EndsIdle(Abs(), time);
      calling := false;
      next := 0;
      ghost var goal := ResetAll(Abs());
      assert expired[0..] == expired;
      for i := 0 to |expired|
        invariant batch == expired[i..] && batchTime == now && ResetAll(Abs()) == goal && goal.Ok?
      {
        assert batch[0] == expired[i] && batch[1..] == expired[i + 1..];
        ResetOneShape(Abs());
        ResetTimer(expired[i].addr, now);
      }
      if timers != [] {
        var nextExpire := heap[timers[0].addr].expiration;
        if nextExpire > 0 {
          SetTimerfd(nextExpire, time);
        }
      }
    }

    method StartBatch(now: int) returns (expired: seq<Entry>)
      requires Inv(Abs()) && !calling && now > 0
      modifies this
      ensures Step(old(Abs()), Begin(now)) == Ok(Abs()) && Inv(Abs())
      ensures expired == batch && batchTime == now && calling && next == 0
      ensures |expired| == LowerBound(old(timers), Entry(now, PTR_MAX))
    {
      hide Inv, LowerBound, Deactivate, SameSize, GetExpired;
      StepSafe(Abs(), Begin(now));
      if timerfd.ArmedFor? && timerfd.time <= now {
        timerfd := Disarmed;
      }
      expired := TakeExpired(now);
      calling := true;
      canceling := {};
      batch, next, batchTime := expired, 0, now;
    }

    method Perform(e: Event)
      requires Inv(Abs()) && Admissible(Abs(), e) && (e.Add? || e.Cancel?)
      modifies this
      ensures Step(old(Abs()), e) == Ok(Abs()) && Inv(Abs())
      ensures batch == old(batch) && next == old(next) && batchTime == old(batchTime) && calling == old(calling)
    {
      match e
      case Add(addr, when, interval, time) =>
        var id := AddTimerInLoop(addr, when, interval, time);
      case Cancel(id) =>
        CancelInLoop(id);
    }

    // A whole handleRead at `now` that finishes at `time`; script[i] is what the i-th callback does.
    method HandleRead(now: int, script: seq<seq<Event>>, time: int)
      requires Inv(Abs()) && !calling && now > 0
      requires CallbackScript(script) && |script| == LowerBound(timers, Entry(now, PTR_MAX))
      requires AdmissibleRun(Abs(), [Begin(now)] + Turns(script, 0, time))
      modifies this
      ensures Run(old(Abs()), [Begin(now)] + Turns(script, 0, time)) == Ok(Abs()) && Inv(Abs()) && !calling
    {
      hide Inv, Admissible, Step;
      ghost var all := [Begin(now)] + Turns(script, 0, time);
      ghost var goal := Run(Abs(), all);
      assert all[0] == Begin(now) && all[1..] == Turns(script, 0, time);
      var expired := StartBatch(now);
      for i := 0 to |expired|
        invariant Inv(Abs()) && i == next && |script| == |expired| && expired == batch && batchTime == now && calling
        invariant AdmissibleRun(Abs(), Turns(script, i, time)) && Run(Abs(), Turns(script, i, time)) == goal
      {
        ghost var rest := Turns(script, i + 1, time);
        assert Turns(script, i, time)[0] == RunNext && Turns(script, i, time)[1..] == script[i] + rest;
        RunCallback();
        assert script[i][0..] == script[i];
        for j := 0 to |script[i]|
          invariant Inv(Abs()) && i + 1 == next && expired == batch && batchTime == now && calling
          invariant AdmissibleRun(Abs(), script[i][j..] + rest) && Run(Abs(), script[i][j..] + rest) == goal
        {
          assert (script[i][j..] + rest)[0] == script[i][j];
          assert (script[i][j..] + rest)[1..] == script[i][j + 1..] + rest;
          Perform(script[i][j]);
        }
        assert script[i][|script[i]|..] + rest == rest;
      }
      assert Turns(script, |expired|, time)[1..] == [];
      ResetBatch(expired, now, time);
    }

    // The callback of the next expired timer starts.
    method RunCallback()
      requires Inv(Abs()) && Admissible(Abs(), RunNext)
      modifies this
      ensures Step(old(Abs()), RunNext) == Ok(Abs()) && Inv(Abs())
      ensures batch == old(batch) && next == old(next) + 1 && batchTime == old(batchTime) && calling == old(calling)
    {
      hide Inv;
      StepSafe(Abs(), RunNext);
      fired := fired + [heap[batch[next].addr].sequence];
      next := next + 1;
    }
  }

  lemma ResetOneShape(q: Queue)
    requires q.batch != [] && ResetOne(q).Ok?
    ensures ResetOne(q).value.batch == q.batch[1..] && ResetOne(q).value.batchTime == q.batchTime
  {
  }

  lemma EndsIdle(q: Queue, time: int)
    requires Inv(q) && q.calling
    ensures EndBatch(q, time).Ok? && !EndBatch(q, time).value.calling
  {
    EndInv(q, time);
    CoreKept(q, q.(calling := false, next := 0));
    ResetAllCore(q.(calling := false, next := 0));
  }
}
