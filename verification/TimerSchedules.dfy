/**
 When a timer fires, in terms of the call that added it and of the batches that follow.
 */
module TimerSchedules {
  import opened Outcomes
  import opened Timers
  import opened TimerFirings

  // The timer with this id is pending, due at `when`.
  ghost predicate PendingAt(q: Queue, id: TimerId, when: int, interval: int) {
    id.addr in q.heap && q.heap[id.addr] == Timer(when, interval, id.sequence) && Pending(q, id.addr)
  }

  // ---------- What each event does to timers and timerfd ----------

  // An added timer has the expiration and interval it was added with and is pending; no other timer changes.  The
  // timerfd is armed for it, not within 100 microseconds, exactly if it is earlier than all others.
  lemma AddedIs(q: Queue, addr: nat, when: int, interval: int, time: int)
    requires Inv(q) && Admissible(q, Add(addr, when, interval, time))
    ensures Step(q, Add(addr, when, interval, time)).Ok?
    ensures
      var r := Step(q, Add(addr, when, interval, time)).value;
      && PendingAt(r, TimerId(addr, r.created), when, interval) && Entry(when, addr) in r.timers
      && TimerId(addr, r.created) in r.active
      && (forall a :: a in r.heap <==> a in q.heap || a == addr)
      && (forall a :: a in q.heap ==> r.heap[a] == q.heap[a] && (Pending(r, a) <==> Pending(q, a)))
      && r.batch == q.batch && r.next == q.next && r.canceling == q.canceling && r.fired == q.fired
      && r.calling == q.calling && r.batchTime == q.batchTime
      && if forall e :: e in q.timers ==> when < e.when
         then r.timerfd == ArmedFor(Max(when, time + MIN_DELAY)) && r.armedAt == time
         else r.timerfd == q.timerfd && r.armedAt == q.armedAt
  {
    hide Inv, Core, Insert, Loose, InsertTimer, Pending, HowMuchTimeFromNow, Less;
    InvCore(q);
    var q1 := Created(q, addr, when, interval);
    AddLoose(q, addr, when, interval);
    LooseInsert(q1, addr);
    InsertShape(q1, addr);
    LooseApart(q1, addr);
    InsertSorted(q1.timers, EntryOf(q1, addr));
    FirstIsEarliest(q, when);
    var r := Step(q, Add(addr, when, interval, time)).value;
    forall a ensures Pending(r, a) <==> Pending(q, a) || a == addr {
      WithTimerPending(q1, addr, a);
      CreatedPending(q, addr, when, interval, a);
      PendingSame(r, WithTimer(q1, addr), a);
    }
  }

  lemma InvCore(q: Queue)
    requires Inv(q)
    ensures Core(q) && IndexesAgree(q) && Sorted(q.timers)
  {
  }

  lemma LooseApart(q: Queue, a: nat)
    requires Loose(q, a)
    ensures IndexesAgree(q) && Sorted(q.timers) && a in q.heap && !Pending(q, a) && EntryOf(q, a) !in q.timers
  {
  }

  lemma FirstIsEarliest(q: Queue, when: int)
    requires Sorted(q.timers)
    ensures EarliestChanged(q, when) <==> forall e :: e in q.timers ==> when < e.when
  {
    if q.timers != [] && when < q.timers[0].when {
      forall e | e in q.timers ensures when < e.when {
        var i :| 0 <= i < |q.timers| && q.timers[i] == e;
        assert i > 0 ==> Less(q.timers[0], q.timers[i]);
      }
    }
  }

  // At the end of a batch the timerfd is armed for the earliest pending timer, not within 100 microseconds, unless
  // that timer's expiration is not positive.
  lemma EndArms(q: Queue, time: int)
    requires Inv(q) && Admissible(q, End(time))
    ensures Step(q, End(time)).Ok?
    ensures
      var r := Step(q, End(time)).value;
      if r.timers != [] && r.timers[0].when > 0
      then r.timerfd == ArmedFor(Max(r.timers[0].when, time + MIN_DELAY)) && r.armedAt == time
      else r.timerfd == q.timerfd && r.armedAt == q.armedAt
  {
    hide Core, ResetAll, HowMuchTimeFromNow;
    EndInv(q, time);
    var q0 := q.(calling := false, next := 0);
    CoreKept(q, q0);
    ResetAllCore(q0);
    ResetAllArmed(q0);
    var q1 := ResetAll(q0).value;
    if q1.timers != [] {
      FirstTimer(q1);
    }
  }

  // When a batch begins, a timerfd that has expired is consumed; one armed for later goes on.
  lemma BeginReads(q: Queue, now: int)
    requires Inv(q) && Admissible(q, Begin(now))
    ensures Step(q, Begin(now)).Ok?
    ensures
      var r := Step(q, Begin(now)).value;
      && (r.timerfd.ArmedFor? ==> now < r.timerfd.time && r.timerfd == q.timerfd)
      && (q.timerfd.ArmedFor? && now < q.timerfd.time ==> r.timerfd == q.timerfd)
  {
    hide Core, Deactivate, LowerBound, Inv;
    StepSafe(q, Begin(now));
    var q0 := ReadTimerfd(q, now);
    var k := LowerBound(q0.timers, Entry(now, PTR_MAX));
    DeactivateArmed(q0.(timers := q0.timers[k..]), q0.timers[..k]);
  }

  lemma {:induction false} DeactivateArmed(q: Queue, es: seq<Entry>)
    requires Deactivate(q, es).Ok?
    ensures Deactivate(q, es).value.timerfd == q.timerfd
    decreases |es|
  {
    if es != [] {
      DeactivateArmed(q.(active := q.active - {IdOf(q, es[0].addr)}), es[1..]);
    }
  }

  lemma {:induction false} ResetAllArmed(q: Queue)
    requires ResetAll(q).Ok?
    ensures ResetAll(q).value.timerfd == q.timerfd && ResetAll(q).value.armedAt == q.armedAt
    decreases |q.batch|
  {
    if q.batch != [] {
      ResetAllArmed(ResetOne(q).value);
    }
  }

  // ---------- The schedule ----------

  datatype Next = At(when: int) | Never

  // A batch at `now` is due for a timer whose next time is at or before it.
  predicate Due(n: Next, e: Event) {
    n.At? && e.Begin? && n.when <= e.now
  }

  // A repeating timer is next due one interval after the batch that ran it.
  function After(n: Next, interval: int, e: Event): Next {
    if !Due(n, e) then n else if interval > 0 then At(e.now + interval) else Never
  }

  function Upcoming(n: Next, interval: int, es: seq<Event>): Next
    decreases |es|
  {
    if es == [] then n else Upcoming(After(n, interval, es[0]), interval, es[1..])
  }

  // How many batches of a run are due for it.
  function Turns(n: Next, interval: int, es: seq<Event>): nat
    decreases |es|
  {
    if es == [] then 0
    else (if Due(n, es[0]) then 1 else 0) + Turns(After(n, interval, es[0]), interval, es[1..])
  }

  // The timer sits at place i of the running batch.
  ghost predicate InTurn(q: Queue, id: TimerId, interval: int, n: Next, i: nat) {
    && q.calling && i < |q.batch| && q.batch[i].addr == id.addr && id.addr in q.heap
    && q.heap[id.addr].sequence == id.sequence && q.heap[id.addr].interval == interval && id !in q.canceling
    && n == if interval > 0 then At(q.batchTime + interval) else Never
  }

  // The timer is next due at n; `owed` says that its turn in the running batch is still to come.
  ghost predicate Tracks(q: Queue, id: TimerId, interval: int, n: Next, owed: nat) {
    || (n.At? && owed == 0 && PendingAt(q, id, n.when, interval))
    || (n.Never? && owed == 0 && Dead(q, id.sequence))
    || exists i: nat :: InTurn(q, id, interval, n, i) && owed == if i >= q.next then 1 else 0
  }

  ghost predicate Fired(q: Queue, r: Queue, id: TimerId, k: nat) {
    q.fired <= r.fired && Count(r.fired[|q.fired|..], id.sequence) == k
  }

  lemma FiredNone(q: Queue, r: Queue, id: TimerId)
    requires r.fired == q.fired
    ensures Fired(q, r, id, 0)
  {
    CountNone(r.fired[|q.fired|..], id.sequence);
  }

  lemma WaitingStep(q: Queue, e: Event, id: TimerId, interval: int, when: int)
    requires Inv(q) && Admissible(q, e) && e != Cancel(id) && PendingAt(q, id, when, interval) && !Due(At(when), e)
    ensures Step(q, e).Ok? && PendingAt(Step(q, e).value, id, when, interval) && Fired(q, Step(q, e).value, id, 0)
  {
    hide Inv, Step, Fired, Pending;
    StepSafe(q, e);
    match e
    case Add(addr, w, i, time) => WaitingAdd(q, e, id);
    case Cancel(other) => WaitingCancel(q, other, id, when, interval);
    case Begin(now) => WaitingBegin(q, now, id, when, interval);
    case RunNext => WaitingRun(q, id, when, interval);
    case End(time) => WaitingEnd(q, time, id, when, interval);
  }

  lemma WaitingAdd(q: Queue, e: Event, id: TimerId)
    requires Inv(q) && Admissible(q, e) && e.Add? && id.addr in q.heap && Pending(q, id.addr)
    ensures Step(q, e).Ok? && id.addr in Step(q, e).value.heap && Step(q, e).value.heap[id.addr] == q.heap[id.addr]
    ensures Pending(Step(q, e).value, id.addr) && Fired(q, Step(q, e).value, id, 0)
  {
    hide Inv, Step, Fired, Pending;
    AddedIs(q, e.addr, e.when, e.interval, e.time);
    FiredNone(q, Step(q, e).value, id);
  }

  lemma WaitingCancel(q: Queue, other: TimerId, id: TimerId, when: int, interval: int)
    requires Inv(q) && other != id && PendingAt(q, id, when, interval)
    ensures Step(q, Cancel(other)).Ok? && PendingAt(Step(q, Cancel(other)).value, id, when, interval)
    ensures Fired(q, Step(q, Cancel(other)).value, id, 0)
  {
    hide Core, Fired, Erase;
    CancelInv(q, other);
    var r := Step(q, Cancel(other)).value;
    FiredNone(q, r, id);
    InvCore(q);
    if other in q.active {
      ActiveIs(q, other);
      EraseSorted(q.timers, EntryOf(q, other.addr));
    }
  }

  lemma WaitingBegin(q: Queue, now: int, id: TimerId, when: int, interval: int)
    requires Inv(q) && Admissible(q, Begin(now)) && PendingAt(q, id, when, interval) && now < when
    ensures Step(q, Begin(now)).Ok? && PendingAt(Step(q, Begin(now)).value, id, when, interval)
    ensures Fired(q, Step(q, Begin(now)).value, id, 0)
  {
    hide Core, BeginBatch, Fired;
    BeginCore(q, now);
    FiredNone(q, Step(q, Begin(now)).value, id);
  }

  lemma WaitingRun(q: Queue, id: TimerId, when: int, interval: int)
    requires Inv(q) && Admissible(q, RunNext) && PendingAt(q, id, when, interval)
    ensures Step(q, RunNext).Ok? && PendingAt(Step(q, RunNext).value, id, when, interval)
    ensures Fired(q, Step(q, RunNext).value, id, 0)
  {
    hide Inv, Count;
    BatchStep(q, RunNext);
    BatchTimer(q, q.next);
    var r := Step(q, RunNext).value;
    NumbersDiffer(q, id.addr, q.batch[q.next].addr);
    CountNone(r.fired[|q.fired|..], id.sequence);
  }

  lemma NumbersDiffer(q: Queue, a: nat, b: nat)
    requires Inv(q) && a in q.heap && b in q.heap && a != b
    ensures q.heap[a].sequence != q.heap[b].sequence
  {
    hide IndexesAgree, BatchApart;
  }

  lemma WaitingEnd(q: Queue, time: int, id: TimerId, when: int, interval: int)
    requires Inv(q) && q.calling && PendingAt(q, id, when, interval)
    ensures Step(q, End(time)).Ok? && PendingAt(Step(q, End(time)).value, id, when, interval)
    ensures Fired(q, Step(q, End(time)).value, id, 0)
  {
    hide Inv, Core, Settled, Fired, EndBatch, Pending, InBatch;
    EndSettles(q, time, id.addr);
    PendingApart(q, id.addr);
    SettledOutside(q.(calling := false, next := 0), Step(q, End(time)).value, id.addr);
    FiredNone(q, Step(q, End(time)).value, id);
  }

  lemma PendingApart(q: Queue, a: nat)
    requires Inv(q) && Pending(q, a)
    ensures !InBatch(q.(calling := false, next := 0), a)
  {
    hide SequencesUnique, IndexesAgree;
  }

  // What the end of a batch makes of a live timer.
  lemma EndSettles(q: Queue, time: int, a: nat)
    requires Inv(q) && q.calling && a in q.heap
    ensures Step(q, End(time)).Ok? && Step(q, End(time)).value.fired == q.fired
    ensures Settled(q.(calling := false, next := 0), Step(q, End(time)).value, a)
    ensures a in Step(q, End(time)).value.heap ==> Pending(Step(q, End(time)).value, a)
  {
    hide Core, ResetAll, Settled, HowMuchTimeFromNow;
    EndInv(q, time);
    StepFlow(q, End(time));
    var q0 := q.(calling := false, next := 0);
    CoreKept(q, q0);
    ResetAllOutcome(q0, a);
    ResetAllCore(q0);
    RearmSettles(q0, ResetAll(q0).value, time, a);
    EndPending(Step(q, End(time)).value, a);
  }

  lemma EndPending(q: Queue, a: nat)
    requires Inv(q) && q.batch == []
    ensures a in q.heap ==> Pending(q, a)
  {
    hide SequencesUnique, IndexesAgree;
  }

  lemma RearmSettles(q: Queue, r: Queue, time: int, a: nat)
    requires a in q.heap && Settled(q, r, a) && Rearm(r, time).Ok? && r.batch == []
    ensures Settled(q, Rearm(r, time).value, a) && Rearm(r, time).value.batch == []
  {
  }

  lemma SettledOutside(q: Queue, r: Queue, a: nat)
    requires a in q.heap && Settled(q, r, a) && !InBatch(q, a)
    ensures a in r.heap && r.heap[a] == q.heap[a]
  {
  }

  // A batch at or after its time takes the timer in.
  lemma DueBegins(q: Queue, now: int, id: TimerId, when: int, interval: int)
    requires Inv(q) && Admissible(q, Begin(now)) && PendingAt(q, id, when, interval) && when <= now
    ensures Step(q, Begin(now)).Ok? && Fired(q, Step(q, Begin(now)).value, id, 0)
    ensures Tracks(Step(q, Begin(now)).value, id, interval, After(At(when), interval, Begin(now)), 1)
  {
    hide Core, BeginBatch, Fired, Dead;
    BeginCore(q, now);
    var r := Step(q, Begin(now)).value;
    FiredNone(q, r, id);
    assert Entry(when, id.addr) in r.batch;
    var i :| 0 <= i < |r.batch| && r.batch[i] == Entry(when, id.addr);
    assert InTurn(r, id, interval, After(At(when), interval, Begin(now)), i);
  }

  // In the batch the timer keeps its place, and fires when its turn comes.
  lemma TurnTracks(q: Queue, e: Event, id: TimerId, interval: int, n: Next, i: nat)
    requires Inv(q) && Admissible(q, e) && e != Cancel(id) && !e.End? && InTurn(q, id, interval, n, i)
    ensures Step(q, e).Ok? && InTurn(Step(q, e).value, id, interval, n, i)
    ensures
      var r := Step(q, e).value;
      Fired(q, r, id, if q.next <= i < r.next then 1 else 0) && (i >= r.next ==> i >= q.next)
  {
    hide Inv, Step, Count;
    BatchStep(q, e);
    CancelingStep(q, e, id);
    var r := Step(q, e).value;
    if e.RunNext? {
      assert r.fired[|q.fired|..] == [q.heap[q.batch[q.next].addr].sequence];
      if i == q.next {
        CountSingle(id.sequence);
      } else {
        if i < q.next {
          DifferentNumbers(q, i, q.next);
        } else {
          DifferentNumbers(q, q.next, i);
        }
        CountNone(r.fired[|q.fired|..], id.sequence);
      }
    } else {
      CountNone(r.fired[|q.fired|..], id.sequence);
    }
  }

  lemma CancelingStep(q: Queue, e: Event, id: TimerId)
    requires Step(q, e).Ok? && q.calling && !e.End? && !e.Begin? && e != Cancel(id) && id !in q.canceling
    ensures id !in Step(q, e).value.canceling && Step(q, e).value.batchTime == q.batchTime
  {
    hide Insert, Erase;
  }

  // At the end of the batch it is pending one interval later, or gone.
  lemma TurnIsOver(q: Queue, time: int, id: TimerId, interval: int, n: Next, i: nat)
    requires Inv(q) && Admissible(q, End(time)) && InTurn(q, id, interval, n, i)
    ensures Step(q, End(time)).Ok? && Fired(q, Step(q, End(time)).value, id, 0)
    ensures Tracks(Step(q, End(time)).value, id, interval, n, 0) && i < q.next
  {
    hide Inv, Core, Fired, EndBatch, Dead, Pending;
    EndSettles(q, time, id.addr);
    var q0 := q.(calling := false, next := 0);
    assert InBatch(q0, id.addr) by {
      assert q0.batch[i].addr == id.addr;
    }
    FiredNone(q, Step(q, End(time)).value, id);
  }

  // One event: the schedule moves on as it should, and firings and turns owed agree.
  lemma TrackStep(q: Queue, e: Event, id: TimerId, interval: int, n: Next, owed: nat) returns (owed': nat, k: nat)
    requires Inv(q) && Admissible(q, e) && e != Cancel(id) && Tracks(q, id, interval, n, owed)
    ensures Step(q, e).Ok? && Inv(Step(q, e).value) && Fired(q, Step(q, e).value, id, k)
    ensures Tracks(Step(q, e).value, id, interval, After(n, interval, e), owed')
    ensures k + owed' == owed + if Due(n, e) then 1 else 0
  {
    hide Inv, Step, Fired, Dead, PendingAt;
    StepSafe(q, e);
    if n.At? && owed == 0 && PendingAt(q, id, n.when, interval) {
      k := 0;
      if Due(n, e) {
        DueBegins(q, e.now, id, n.when, interval);
        owed' := 1;
      } else {
        WaitingStep(q, e, id, interval, n.when);
        owed' := 0;
      }
    } else if n.Never? && owed == 0 && Dead(q, id.sequence) {
      GoneStep(q, e, id);
      k, owed' := 0, 0;
    } else {
      var i: nat :| InTurn(q, id, interval, n, i) && owed == if i >= q.next then 1 else 0;
      CallingNotDue(q, e, n);
      if e.End? {
        TurnIsOver(q, e.time, id, interval, n, i);
        k, owed' := 0, 0;
      } else {
        TurnTracks(q, e, id, interval, n, i);
        owed' := if i >= Step(q, e).value.next then 1 else 0;
        k := owed - owed';
      }
    }
  }

  lemma CallingNotDue(q: Queue, e: Event, n: Next)
    requires Admissible(q, e) && q.calling
    ensures !Due(n, e)
  {
  }

  lemma GoneStep(q: Queue, e: Event, id: TimerId)
    requires Inv(q) && Admissible(q, e) && Dead(q, id.sequence)
    ensures Step(q, e).Ok? && Dead(Step(q, e).value, id.sequence) && Fired(q, Step(q, e).value, id, 0)
  {
    hide Inv, Step, Dead, Admissible, Count;
    StepSafe(q, e);
    StepDead(q, e, id.sequence);
    CountNone(Step(q, e).value.fired[|q.fired|..], id.sequence);
  }

  lemma {:induction false} TrackRun(q: Queue, es: seq<Event>, id: TimerId, interval: int, n: Next, owed: nat)
    returns (owed': nat, k: nat)
    requires Inv(q) && AdmissibleRun(q, es) && Cancel(id) !in es && Tracks(q, id, interval, n, owed)
    ensures Run(q, es).Ok? && Inv(Run(q, es).value) && Fired(q, Run(q, es).value, id, k)
    ensures Tracks(Run(q, es).value, id, interval, Upcoming(n, interval, es), owed')
    ensures k + owed' == owed + Turns(n, interval, es)
    decreases |es|
  {
    hide Inv, Step, Tracks, Admissible, After, Due, Fired;
    if es == [] {
      FiredNone(q, q, id);
      k, owed' := 0, owed;
    } else {
      var owed1, k1 := TrackStep(q, es[0], id, interval, n, owed);
      var q1 := Step(q, es[0]).value;
      var k2: nat;
      owed', k2 := TrackRun(q1, es[1..], id, interval, After(n, interval, es[0]), owed1);
      FiredChain(q, q1, Run(q1, es[1..]).value, id, k1, k2);
      k := k1 + k2;
    }
  }

  lemma FiredChain(q: Queue, q1: Queue, r: Queue, id: TimerId, k1: nat, k2: nat)
    requires Fired(q, q1, id, k1) && Fired(q1, r, id, k2)
    ensures Fired(q, r, id, k1 + k2)
  {
    hide Count;
    CountSplit(q.fired, q1.fired, r.fired, id.sequence);
  }

  // Outside a batch a tracked timer owes nothing: it is pending at its next time, or gone.
  lemma TracksIdle(q: Queue, id: TimerId, interval: int, n: Next, owed: nat)
    requires Tracks(q, id, interval, n, owed) && !q.calling
    ensures owed == 0 && if n.At? then PendingAt(q, id, n.when, interval) else Dead(q, id.sequence)
  {
  }

  // A timer added at any point of any run and not cancelled fires once in every batch that begins at or after its
  // time, and in no other; each such batch moves its time to one interval later, or ends it if it has no interval.
  lemma FiresOnSchedule(es: seq<Event>, q: Queue, add: Event, q1: Queue, es': seq<Event>, r: Queue)
    requires AdmissibleRun(EMPTY, es) && Run(EMPTY, es) == Ok(q)
    requires add.Add? && Admissible(q, add) && Step(q, add) == Ok(q1)
    requires AdmissibleRun(q1, es') && Run(q1, es') == Ok(r) && !r.calling
    requires Cancel(TimerId(add.addr, q1.created)) !in es'
    ensures
      var id, n := TimerId(add.addr, q1.created), Upcoming(At(add.when), add.interval, es');
      && Count(r.fired, id.sequence) == Turns(At(add.when), add.interval, es')
      && if n.At? then PendingAt(r, id, n.when, add.interval) else Dead(r, id.sequence)
  {
    hide Inv, Step, Run, AdmissibleRun, Count, Dead, Admissible, PendingAt;
    EmptyInv();
    FiredKnownRun(EMPTY, es);
    var id := TimerId(add.addr, q1.created);
    AddedIs(q, add.addr, add.when, add.interval, add.time);
    AddedNumber(q, add);
    StepSafe(q, add);
    var owed, k := TrackRun(q1, es', id, add.interval, At(add.when), 0);
    TracksIdle(r, id, add.interval, Upcoming(At(add.when), add.interval, es'), owed);
    CountNone(q1.fired, id.sequence);
    CountSplit([], q1.fired, r.fired, id.sequence);
    assert r.fired[0..] == r.fired && q1.fired[0..] == q1.fired;
  }

  lemma AddedNumber(q: Queue, add: Event)
    requires add.Add? && Step(q, add).Ok? && FiredKnown(q)
    ensures Step(q, add).value.created == q.created + 1 && Step(q, add).value.created !in Step(q, add).value.fired
  {
    hide Insert;
  }
}
