/**
 Which timers a run of the queue fires, and how often.
 */
module TimerFirings {
  import opened Outcomes
  import opened Timers

  ghost predicate Alive(q: Queue, es: seq<Entry>) {
    forall i :: 0 <= i < |es| ==> es[i].addr in q.heap
  }

  ghost function Numbers(q: Queue, es: seq<Entry>): (ns: seq<int>)
    requires Alive(q, es)
    ensures |ns| == |es|
  {
    seq(|es|, i requires 0 <= i < |es| => q.heap[es[i].addr].sequence)
  }

  // ---------- One batch ----------

  lemma BatchAlive(q: Queue)
    requires Inv(q)
    ensures Alive(q, q.batch)
  {
  }

  // Inside a batch, whatever the callbacks do, the timers whose turn came have fired, in order.
  lemma {:induction false} BatchRuns(q: Queue, es: seq<Event>)
    requires Inv(q) && q.calling && AdmissibleRun(q, es) && forall i :: 0 <= i < |es| ==> !es[i].End?
    ensures Run(q, es).Ok?
    ensures
      var r := Run(q, es).value;
      && r.batch == q.batch && q.next <= r.next <= |q.batch| && Alive(q, q.batch)
      && r.fired == q.fired + Numbers(q, q.batch[q.next..r.next])
    decreases |es|
  {
    hide Inv, Step, Admissible;
    BatchAlive(q);
    NextInRange(q);
    if es == [] {
      assert q.fired + Numbers(q, q.batch[q.next..q.next]) == q.fired;
    } else {
      BatchStep(q, es[0]);
      var q1 := Step(q, es[0]).value;
      BatchRuns(q1, es[1..]);
      var r := Run(q1, es[1..]).value;
      BatchAlive(q1);
      if es[0].RunNext? {
        assert q.batch[q.next..r.next] == [q.batch[q.next]] + q.batch[q1.next..r.next];
        assert Numbers(q, q.batch[q.next..r.next]) ==
               [q.heap[q.batch[q.next].addr].sequence] + Numbers(q1, q.batch[q1.next..r.next]);
      } else {
        assert Numbers(q, q.batch[q.next..r.next]) == Numbers(q1, q.batch[q1.next..r.next]);
      }
    }
  }

  lemma NextInRange(q: Queue)
    requires Inv(q)
    ensures q.next <= |q.batch|
  {
  }

  // One handleRead fires exactly the timers that were due, each once, in order of expiration.
  lemma BatchFires(q: Queue, now: int, q1: Queue, es: seq<Event>, time: int)
    requires Inv(q) && Admissible(q, Begin(now)) && Step(q, Begin(now)) == Ok(q1)
    requires AdmissibleRun(q1, es) && forall i :: 0 <= i < |es| ==> !es[i].End?
    requires Run(q1, es).Ok? ==> Admissible(Run(q1, es).value, End(time))
    ensures Run(q1, es).Ok? && Alive(q, q1.batch)
    ensures Run(q1, es).value.fired == q.fired + Numbers(q, q1.batch)
    ensures forall e :: e in q1.batch <==> e in q.timers && e.when <= now
    ensures forall i, j :: 0 <= i < j < |q1.batch| ==>
      q1.batch[i].when <= q1.batch[j].when && Numbers(q, q1.batch)[i] != Numbers(q, q1.batch)[j]
  {
    hide Core, BeginBatch, EndBatch, AddTimer, CancelTimer, RunTimer;
    StepSafe(q, Begin(now));
    BeginCore(q, now);
    BatchExact(q, now);
    BatchRuns(q1, es);
    BatchAlive(q1);
    assert q1.batch[0..|q1.batch|] == q1.batch;
    assert Numbers(q1, q1.batch) == Numbers(q, q1.batch);
    forall i, j | 0 <= i < j < |q1.batch| ensures Numbers(q, q1.batch)[i] != Numbers(q, q1.batch)[j] {
      DifferentNumbers(q1, i, j);
    }
  }

  lemma DifferentNumbers(q: Queue, i: nat, j: nat)
    requires Inv(q) && i < j < |q.batch|
    ensures q.batch[i].addr in q.heap && q.batch[j].addr in q.heap
    ensures q.heap[q.batch[i].addr].sequence != q.heap[q.batch[j].addr].sequence
  {
    hide IndexesAgree;
  }

  // ---------- A timer without interval ----------

  // No timer with this number repeats.
  ghost predicate OneShot(q: Queue, number: int) {
    number <= q.created && forall a :: a in q.heap && q.heap[a].sequence == number ==> q.heap[a].interval <= 0
  }

  // The timer at place i of the batch has this number and has had its turn.
  ghost predicate HadTurn(q: Queue, number: int, i: nat) {
    && i < q.next && i < |q.batch| && q.batch[i].addr in q.heap
    && q.heap[q.batch[i].addr].sequence == number && q.heap[q.batch[i].addr].interval <= 0
  }

  // The timer is gone, or it has had its turn and goes when the batch ends.
  ghost predicate Spent(q: Queue, number: int) {
    Dead(q, number) || (q.calling && exists i: nat :: HadTurn(q, number, i))
  }

  lemma OneShotStep(q: Queue, e: Event, number: int)
    requires Inv(q) && Admissible(q, e) && OneShot(q, number)
    ensures Step(q, e).Ok? && OneShot(Step(q, e).value, number)
  {
    hide Core;
    StepSafe(q, e);
    IntervalsFlow(q, e);
  }

  // No timer changes its number or interval; a new one has a fresh number.
  ghost predicate Flows(q: Queue, r: Queue) {
    && q.created <= r.created
    && forall a :: a in r.heap ==>
      || r.heap[a].sequence > q.created
      || (a in q.heap && q.heap[a].sequence == r.heap[a].sequence && q.heap[a].interval == r.heap[a].interval)
  }

  lemma {:induction false} ResetAllKeeps(q: Queue)
    requires ResetAll(q).Ok?
    ensures Flows(q, ResetAll(q).value)
    decreases |q.batch|
  {
    hide Insert;
    if q.batch != [] {
      ResetAllKeeps(ResetOne(q).value);
    }
  }

  lemma IntervalsFlow(q: Queue, e: Event)
    requires Step(q, e).Ok?
    ensures Flows(q, Step(q, e).value)
  {
    hide Insert, Erase, LowerBound, Deactivate, ResetAll;
    match e
    case Begin(now) =>
      var q0 := ReadTimerfd(q, now);
      var k := LowerBound(q.timers, Entry(now, PTR_MAX));
      DeactivateFlow(q0.(timers := q0.timers[k..]), q0.timers[..k]);
    case End(time) =>
      ResetAllKeeps(q.(calling := false, next := 0));
    case _ =>
  }

  // Once spent, it fires no more and stays spent.
  lemma SpentStep(q: Queue, e: Event, number: int)
    requires Inv(q) && Admissible(q, e) && Spent(q, number)
    ensures Step(q, e).Ok? && Spent(Step(q, e).value, number)
    ensures q.fired <= Step(q, e).value.fired && number !in Step(q, e).value.fired[|q.fired|..]
  {
    hide Inv, Step, Dead, Admissible;
    StepSafe(q, e);
    if Dead(q, number) {
      StepDead(q, e, number);
    } else {
      var i: nat :| HadTurn(q, number, i);
      if e.End? {
        TurnEnds(q, e.time, number, i);
      } else {
        TurnStep(q, e, number, i);
      }
    }
  }

  lemma TurnStep(q: Queue, e: Event, number: int, i: nat)
    requires Inv(q) && q.calling && Admissible(q, e) && !e.End? && HadTurn(q, number, i)
    ensures Step(q, e).Ok? && Step(q, e).value.calling && HadTurn(Step(q, e).value, number, i)
    ensures q.fired <= Step(q, e).value.fired && number !in Step(q, e).value.fired[|q.fired|..]
  {
    hide Inv, Step;
    BatchStep(q, e);
    if e.RunNext? {
      DifferentNumbers(q, i, q.next);
    }
  }

  lemma TurnEnds(q: Queue, time: int, number: int, i: nat)
    requires Inv(q) && q.calling && HadTurn(q, number, i)
    ensures Step(q, End(time)).Ok? && Dead(Step(q, End(time)).value, number)
    ensures Step(q, End(time)).value.fired == q.fired
  {
    hide Core, ResetAll, Dead, HowMuchTimeFromNow;
    var a := q.batch[i].addr;
    EndInv(q, time);
    StepFlow(q, End(time));
    var q0 := q.(calling := false, next := 0);
    CoreKept(q, q0);
    assert InBatch(q0, a) by {
      assert q0.batch[i].addr == a;
    }
    ResetAllOutcome(q0, a);
    RearmDead(ResetAll(q0).value, time, number);
  }

  lemma RearmDead(q: Queue, time: int, number: int)
    requires Rearm(q, time).Ok? && Dead(q, number)
    ensures Dead(Rearm(q, time).value, number)
  {
  }

  // A step fires an unspent timer at most once, and then it is spent.
  lemma ShotStep(q: Queue, e: Event, number: int)
    requires Inv(q) && Admissible(q, e) && OneShot(q, number)
    ensures Step(q, e).Ok? && q.fired <= Step(q, e).value.fired
    ensures
      var r := Step(q, e).value;
      number !in r.fired[|q.fired|..] || (r.fired[|q.fired|..] == [number] && Spent(r, number))
  {
    hide Inv, Step, Dead, Admissible, OneShot;
    StepSafe(q, e);
    StepFlow(q, e);
    if e.RunNext? {
      RunTurn(q, number);
    }
  }

  lemma RunTurn(q: Queue, number: int)
    requires Inv(q) && Admissible(q, RunNext) && OneShot(q, number)
    ensures Step(q, RunNext).Ok? && q.fired <= Step(q, RunNext).value.fired
    ensures
      var r := Step(q, RunNext).value;
      number !in r.fired[|q.fired|..] || (r.fired[|q.fired|..] == [number] && Spent(r, number))
  {
    hide Inv, Dead;
    BatchStep(q, RunNext);
    var r := Step(q, RunNext).value;
    var fired := q.heap[q.batch[q.next].addr].sequence;
    assert r.fired[|q.fired|..] == [fired];
    if fired == number {
      assert HadTurn(r, number, q.next);
    }
  }

  ghost function Count(s: seq<int>, number: int): nat {
    multiset(s)[number]
  }

  lemma CountSplit(a: seq<int>, b: seq<int>, c: seq<int>, number: int)
    requires a <= b <= c
    ensures Count(c[|a|..], number) == Count(b[|a|..], number) + Count(c[|b|..], number)
  {
    assert c[|a|..] == b[|a|..] + c[|b|..];
  }

  lemma CountNone(s: seq<int>, number: int)
    requires number !in s
    ensures Count(s, number) == 0
  {
  }

  // In any run a timer without interval fires at most once, and not at all once it is spent.
  lemma {:induction false} ShotRun(q: Queue, es: seq<Event>, number: int)
    requires Inv(q) && AdmissibleRun(q, es) && OneShot(q, number)
    ensures Run(q, es).Ok? && q.fired <= Run(q, es).value.fired
    ensures Count(Run(q, es).value.fired[|q.fired|..], number) <= if Spent(q, number) then 0 else 1
    decreases |es|
  {
    hide Inv, Step, Spent, OneShot, Admissible, Count;
    if es == [] {
      CountNone(q.fired[|q.fired|..], number);
    } else {
      StepSafe(q, es[0]);
      OneShotStep(q, es[0], number);
      ShotStep(q, es[0], number);
      var q1 := Step(q, es[0]).value;
      ShotRun(q1, es[1..], number);
      var r := Run(q1, es[1..]).value;
      CountSplit(q.fired, q1.fired, r.fired, number);
      if Spent(q, number) {
        SpentStep(q, es[0], number);
      }
      if number !in q1.fired[|q.fired|..] {
        CountNone(q1.fired[|q.fired|..], number);
      } else {
        CountSingle(number);
      }
    }
  }

  lemma CountSingle(number: int)
    ensures Count([number], number) == 1
  {
  }

  // Only numbers already given out have fired.
  ghost predicate FiredKnown(q: Queue) {
    forall i :: 0 <= i < |q.fired| ==> q.fired[i] <= q.created
  }

  lemma {:induction false} FiredKnownRun(q: Queue, es: seq<Event>)
    requires Inv(q) && AdmissibleRun(q, es) && FiredKnown(q)
    ensures Run(q, es).Ok? && FiredKnown(Run(q, es).value) && Inv(Run(q, es).value)
    decreases |es|
  {
    hide Inv, Step, Admissible;
    if es != [] {
      StepSafe(q, es[0]);
      FiredKnownStep(q, es[0]);
      FiredKnownRun(Step(q, es[0]).value, es[1..]);
    }
  }

  lemma FiredKnownStep(q: Queue, e: Event)
    requires Inv(q) && Admissible(q, e) && FiredKnown(q)
    ensures Step(q, e).Ok? && FiredKnown(Step(q, e).value)
  {
    hide Inv, Step, SequencesUnique;
    StepSafe(q, e);
    StepFlow(q, e);
    if e.RunNext? {
      BatchStep(q, e);
      NumberKnown(q, q.batch[q.next].addr);
    }
  }

  lemma NumberKnown(q: Queue, a: nat)
    requires Inv(q) && a in q.heap
    ensures q.heap[a].sequence <= q.created
  {
  }

  // A timer added without interval, at any point of any run, fires at most once in its life.
  lemma FiresAtMostOnce(es: seq<Event>, q: Queue, add: Event, q1: Queue, es': seq<Event>)
    requires AdmissibleRun(EMPTY, es) && Run(EMPTY, es) == Ok(q)
    requires add.Add? && add.interval <= 0 && Admissible(q, add) && Step(q, add) == Ok(q1)
    requires AdmissibleRun(q1, es')
    ensures Run(q1, es').Ok? && add.addr in q1.heap
    ensures Count(Run(q1, es').value.fired, q1.heap[add.addr].sequence) <= 1
  {
    hide Core, Insert, Run, AdmissibleRun, Count, Dead;
    EmptyInv();
    FiredKnownRun(EMPTY, es);
    StepSafe(q, add);
    var number := q.created + 1;
    AddedOneShot(q, add);
    ShotRun(q1, es', number);
    var r := Run(q1, es').value;
    CountNone(q1.fired, number);
    CountSplit([], q1.fired, r.fired, number);
    assert r.fired[0..] == r.fired && q1.fired[0..] == q1.fired;
  }

  lemma AddedOneShot(q: Queue, add: Event)
    requires Inv(q) && add.Add? && add.interval <= 0 && Admissible(q, add) && Step(q, add).Ok?
    ensures OneShot(Step(q, add).value, q.created + 1) && Step(q, add).value.fired == q.fired
    ensures add.addr in Step(q, add).value.heap && Step(q, add).value.heap[add.addr].sequence == q.created + 1
  {
    hide Insert, IndexesAgree, BatchApart;
  }
}
