/**
 Handing functors to an event loop from any thread: net/event_loop.cc as a machine of atomic steps.

 A producer pushes under the lock and then writes the eventfd; the loop polls, dispatches, swaps the queue
 under the lock and runs what it took.  Any interleaving of the steps below is a run.
 */
module EventLoops {

  type Functor = nat
  type ThreadId = nat

  // Where the loop thread is: at the test of quit_, in poll, handling events, in doPendingFunctors before and
  // after the swap, or past the loop.
  datatype Pc = AtTest | Polling | Dispatching | Swapping | Running | Stopped

  // `owing` are the other threads between their push and their wakeup; `selfOwes` says the same of the loop
  // thread.  `pushed` and `executed` record the history.
  datatype Loop = Loop(
    pc: Pc, quit: bool, calling: bool, wakeActive: bool,
    pending: seq<Functor>, batch: seq<Functor>, counter: nat,
    owing: set<ThreadId>, selfOwes: bool,
    pushed: seq<Functor>, executed: seq<Functor>)

  datatype Step =
    | Push(thread: ThreadId, functor: Functor)
    | Wakeup(thread: ThreadId)
    | Quit
    | QuitWakeup
    | Test
    | PollReturns(wake: bool)
    | ReadWakeup
    | SelfPush(functor: Functor)
    | SelfWakeup
    | EndDispatch
    | Swap
    | RunOne
    | EndPending

  const COUNTER_MAX: nat := 0xFFFF_FFFF_FFFF_FFFE

  // write(wakeupFd_): a full eventfd counter refuses the write.
  function AddWakeup(s: Loop): Loop {
    if s.counter < COUNTER_MAX then s.(counter := s.counter + 1) else s
  }

  predicate Enabled(s: Loop, e: Step) {
    match e
    case Push(t, _) => t !in s.owing
    case Wakeup(t) => t in s.owing
    case Quit => true
    case QuitWakeup => true
    case Test => s.pc == AtTest
    case PollReturns(wake) => s.pc == Polling && (wake ==> s.counter > 0)
    case ReadWakeup => s.pc == Dispatching && s.wakeActive
    case SelfPush(_) => (s.pc == Dispatching || s.pc == Running) && !s.selfOwes
    case SelfWakeup => s.selfOwes
    case EndDispatch => s.pc == Dispatching && !s.selfOwes
    case Swap => s.pc == Swapping
    case RunOne => s.pc == Running && s.batch != [] && !s.selfOwes
    case EndPending => s.pc == Running && s.batch == [] && !s.selfOwes
  }

  function Next(s: Loop, e: Step): Loop {
    match e
    case Push(t, f) => s.(pending := s.pending + [f], pushed := s.pushed + [f], owing := s.owing + {t})
    case Wakeup(t) => AddWakeup(s.(owing := s.owing - {t}))
    case Quit => s.(quit := true)
    case QuitWakeup => AddWakeup(s)
    case Test => s.(pc := if s.quit then Stopped else Polling)
    case PollReturns(wake) => s.(pc := Dispatching, wakeActive := wake)
    case ReadWakeup => s.(counter := 0, wakeActive := false)
    case SelfPush(f) => s.(pending := s.pending + [f], pushed := s.pushed + [f], selfOwes := true)
    case SelfWakeup => (if s.calling then AddWakeup(s) else s).(selfOwes := false)
    case EndDispatch => s.(pc := Swapping, calling := true, wakeActive := false)
    case Swap => s.(pc := Running, batch := s.pending, pending := [])
    case RunOne => if s.batch == [] then s else s.(executed := s.executed + [s.batch[0]], batch := s.batch[1..])
    case EndPending => s.(pc := AtTest, calling := false)
  }

  // loop() is entered with whatever was queued and woken before.
  function Start(pending: seq<Functor>, counter: nat, owing: set<ThreadId>): Loop {
    Loop(AtTest, false, false, false, pending, [], counter, owing, false, pending, [])
  }

  function Run(s: Loop, es: seq<Step>): Loop {
    if es == [] then s else Next(Run(s, es[..|es| - 1]), es[|es| - 1])
  }

  ghost predicate IsRun(s: Loop, es: seq<Step>) {
    es == [] || (IsRun(s, es[..|es| - 1]) && Enabled(Run(s, es[..|es| - 1]), es[|es| - 1]))
  }

  // ---------- Safety ----------

  // Nothing is lost, duplicated or reordered.
  ghost predicate InOrder(s: Loop) {
    s.executed + s.batch + s.pending == s.pushed
  }

  // Something will wake the loop.
  ghost predicate WakeComing(s: Loop) {
    s.counter > 0 || s.owing != {} || (s.selfOwes && s.calling)
  }

  ghost predicate Inv(s: Loop) {
    && InOrder(s)
    && (s.calling <==> s.pc == Swapping || s.pc == Running)
    && (s.batch != [] ==> s.pc == Running)
    && (s.pc == Stopped ==> s.quit)
    && (s.selfOwes ==> s.pc == Dispatching || s.pc == Running)
    && (s.pc == AtTest || s.pc == Polling || s.pc == Running ==> s.pending == [] || WakeComing(s))
  }

  lemma NextInv(s: Loop, e: Step)
    requires Inv(s) && Enabled(s, e)
    ensures Inv(Next(s, e))
    ensures s.quit ==> Next(s, e).quit && (Next(s, e).pc == Polling ==> s.pc == Polling)
  {
    hide InOrder;
    OrderStep(s, e);
    match e
    case Push(t, f) => assert t in Next(s, e).owing;
    case _ =>
  }

  lemma {:induction false} RunInv(s: Loop, es: seq<Step>)
    requires Inv(s) && IsRun(s, es)
    ensures Inv(Run(s, es))
  {
    hide Inv, Next, Enabled;
    if es != [] {
      RunInv(s, es[..|es| - 1]);
      NextInv(Run(s, es[..|es| - 1]), es[|es| - 1]);
    }
  }

  // Under every interleaving: what was executed, the rest of the batch and the queue are the pushes in order.
  lemma {:induction false} HandOffInOrder(s: Loop, es: seq<Step>)
    requires IsRun(s, es) && InOrder(s) && (s.batch != [] ==> s.pc == Running)
    ensures InOrder(Run(s, es)) && (Run(s, es).batch != [] ==> Run(s, es).pc == Running)
  {
    if es != [] {
      HandOffInOrder(s, es[..|es| - 1]);
      OrderStep(Run(s, es[..|es| - 1]), es[|es| - 1]);
    }
  }

  lemma OrderStep(s: Loop, e: Step)
    requires Enabled(s, e) && InOrder(s) && (s.batch != [] ==> s.pc == Running)
    ensures InOrder(Next(s, e)) && (Next(s, e).batch != [] ==> Next(s, e).pc == Running)
  {
    match e
    case Push(t, f) =>
      assert s.executed + s.batch + (s.pending + [f]) == s.executed + s.batch + s.pending + [f];
    case SelfPush(f) =>
      assert s.executed + s.batch + (s.pending + [f]) == s.executed + s.batch + s.pending + [f];
    case Swap =>
      assert s.executed + s.batch + s.pending == s.executed + s.pending + [];
    case RunOne =>
      assert s.batch == [s.batch[0]] + s.batch[1..];
      assert s.executed + [s.batch[0]] + s.batch[1..] == s.executed + s.batch;
    case _ =>
  }

  // The loop is in poll with work queued and nothing on its way to wake it.
  ghost predicate Asleep(s: Loop) {
    s.pc == Polling && s.pending != [] && s.counter == 0 && s.owing == {}
  }

  // No run leaves the loop asleep.
  ghost predicate Wakeful(s: Loop) {
    forall es :: IsRun(s, es) ==> !Asleep(Run(s, es))
  }

  // No run ever leaves the loop asleep over queued work, exactly if loop() is entered with an empty queue, a
  // wakeup already written, or one about to be written.
  lemma NeverAsleep(pending: seq<Functor>, counter: nat, owing: set<ThreadId>)
    ensures Wakeful(Start(pending, counter, owing)) <==> pending == [] || counter > 0 || owing != {}
  {
    hide IsRun, Run, Next, Enabled;
    var s := Start(pending, counter, owing);
    if pending == [] || counter > 0 || owing != {} {
      forall es | IsRun(s, es) ensures !Asleep(Run(s, es)) {
        RunInv(s, es);
      }
    } else {
      SleepsAtOnce(s, [Test]);
    }
  }

  // One test of quit_ and the loop sleeps over what was queued before.
  lemma SleepsAtOnce(s: Loop, es: seq<Step>)
    requires s.pc == AtTest && !s.quit && s.pending != [] && s.counter == 0 && s.owing == {} && es == [Test]
    ensures IsRun(s, es) && Asleep(Run(s, es))
  {
    assert es[..|es| - 1] == [];
    assert IsRun(s, []) && Run(s, []) == s;
  }

  // ---------- Leaving the loop ----------

  // After quit, a loop that is not in poll never polls again: it finishes its round and leaves.
  ghost predicate Leaving(s: Loop) {
    s.quit && s.pc != Polling
  }

  lemma LeavingStep(s: Loop, e: Step)
    requires Leaving(s) && Enabled(s, e)
    ensures Leaving(Next(s, e))
    ensures s.pc == Stopped ==> Next(s, e).pc == Stopped
  {
  }

  lemma {:induction false} QuitEndsPolling(s: Loop, es: seq<Step>)
    requires Leaving(s) && IsRun(s, es)
    ensures Leaving(Run(s, es)) && (s.pc == Stopped ==> Run(s, es).pc == Stopped)
  {
    hide Next, Enabled, Leaving;
    if es != [] {
      QuitEndsPolling(s, es[..|es| - 1]);
      LeavingStep(Run(s, es[..|es| - 1]), es[|es| - 1]);
    }
  }

  // The flag is set exactly by quit, for good, and the loop stops only in runs that contain it.
  lemma {:induction false} StopsOnlyByQuit(s: Loop, es: seq<Step>)
    requires !s.quit && s.pc != Stopped && IsRun(s, es)
    ensures Run(s, es).quit <==> Quit in es
    ensures Run(s, es).pc == Stopped ==> Quit in es
  {
    hide Next, Enabled;
    if es != [] {
      var before := es[..|es| - 1];
      StopsOnlyByQuit(s, before);
      assert es == before + [es[|es| - 1]];
      QuitStep(Run(s, before), es[|es| - 1]);
    }
  }

  lemma QuitStep(s: Loop, e: Step)
    requires Enabled(s, e)
    ensures Next(s, e).quit <==> s.quit || e == Quit
    ensures Next(s, e).pc == Stopped ==> s.pc == Stopped || s.quit
  {
  }

  lemma {:induction false} RunConcat(s: Loop, es: seq<Step>, fs: seq<Step>)
    requires IsRun(s, es) && IsRun(Run(s, es), fs)
    ensures IsRun(s, es + fs) && Run(s, es + fs) == Run(Run(s, es), fs)
  {
    hide Next, Enabled;
    if fs == [] {
      assert es + fs == es;
    } else {
      RunConcat(s, es, fs[..|fs| - 1]);
      assert (es + fs)[..|es + fs| - 1] == es + fs[..|fs| - 1];
    }
  }

  lemma RunOneStep(s: Loop, e: Step)
    requires Enabled(s, e)
    ensures IsRun(s, [e]) && Run(s, [e]) == Next(s, e)
  {
    hide Next, Enabled;
    assert [e][..0] == [];
    assert IsRun(s, []) && Run(s, []) == s;
  }

  lemma Then(s: Loop, es: seq<Step>, e: Step)
    requires IsRun(s, es) && Enabled(Run(s, es), e)
    ensures IsRun(s, es + [e]) && Run(s, es + [e]) == Next(Run(s, es), e)
  {
    hide IsRun, Run, Next, Enabled;
    RunOneStep(Run(s, es), e);
    RunConcat(s, es, [e]);
  }

  // The loop thread alone brings any round to its end.
  lemma FinishesRound(s: Loop) returns (es: seq<Step>)
    requires s.pc == Dispatching || s.pc == Swapping || s.pc == Running
    ensures IsRun(s, es) && Run(s, es).pc == AtTest && Run(s, es).quit == s.quit
  {
    hide IsRun, Run;
    es := [];
    NoSteps(s);
    if s.selfOwes {
      Then(s, es, SelfWakeup);
      es := es + [SelfWakeup];
    }
    if Run(s, es).pc == Dispatching {
      Then(s, es, EndDispatch);
      es := es + [EndDispatch];
    }
    if Run(s, es).pc == Swapping {
      Then(s, es, Swap);
      es := es + [Swap];
    }
    var r := Run(s, es);
    RunMany(r, |r.batch|);
    var calls := seq(|r.batch|, _ => RunOne);
    RunConcat(s, es, calls);
    es := es + calls;
    Then(s, es, EndPending);
    es := es + [EndPending];
  }

  lemma NoSteps(s: Loop)
    ensures IsRun(s, []) && Run(s, []) == s
  {
  }

  // After quit the loop can leave, from wherever it is outside poll.
  lemma QuitCanStop(s: Loop) returns (es: seq<Step>)
    requires Leaving(s)
    ensures IsRun(s, es) && Run(s, es).pc == Stopped
  {
    hide IsRun, Run;
    NoSteps(s);
    es := [];
    if s.pc != Stopped {
      if s.pc != AtTest {
        es := FinishesRound(s);
      }
      Then(s, es, Test);
      es := es + [Test];
    }
  }

  // Wherever the loop is, quit and its wakeup are enough for it to leave.
  lemma QuitStops(s: Loop) returns (es: seq<Step>)
    ensures [Quit, QuitWakeup] <= es && IsRun(s, es) && Run(s, es).pc == Stopped
  {
    hide IsRun, Run;
    NoSteps(s);
    Then(s, [], Quit);
    es := [] + [Quit];
    Then(s, es, QuitWakeup);
    es := es + [QuitWakeup];
    if Run(s, es).pc == Polling {
      Then(s, es, PollReturns(true));
      es := es + [PollReturns(true)];
    }
    var fs := QuitCanStop(Run(s, es));
    RunConcat(s, es, fs);
    es := es + fs;
  }

  // ---------- Wakeups ----------

  // Step e writes the eventfd: another thread's wakeup always, the loop thread's own only while it calls functors.
  predicate Writes(s: Loop, e: Step) {
    e.Wakeup? || e.QuitWakeup? || (e.SelfWakeup? && s.calling)
  }

  // How often the eventfd was written since it was last read.
  function Unread(s: Loop, es: seq<Step>): nat {
    if es == [] then s.counter else
    var e := es[|es| - 1];
    if e.ReadWakeup? then 0
    else Unread(s, es[..|es| - 1]) + if Writes(Run(s, es[..|es| - 1]), e) then 1 else 0
  }

  function Least(x: nat, y: nat): nat {
    if x < y then x else y
  }

  // The counter is the number of wakeups not yet read, as far as it can count.
  lemma {:induction false} CounterExact(s: Loop, es: seq<Step>)
    requires IsRun(s, es) && s.counter <= COUNTER_MAX
    ensures Run(s, es).counter == Least(Unread(s, es), COUNTER_MAX)
  {
    hide Next, Enabled, Writes;
    if es != [] {
      CounterExact(s, es[..|es| - 1]);
      CounterStep(Run(s, es[..|es| - 1]), es[|es| - 1]);
    }
  }

  lemma CounterStep(s: Loop, e: Step)
    requires s.counter <= COUNTER_MAX
    ensures Next(s, e).counter ==
      if e.ReadWakeup? then 0 else Least(s.counter + (if Writes(s, e) then 1 else 0), COUNTER_MAX)
  {
  }

  // ---------- What one round does ----------

  // From the swap to the end of doPendingFunctors, whatever other threads and functors push, the functors swapped
  // are executed from the front and no others are.
  lemma {:induction false} RoundRuns(s: Loop, es: seq<Step>)
    requires s.pc == Running && IsRun(s, es) && EndPending !in es
    ensures Run(s, es).pc == Running && Run(s, es).executed + Run(s, es).batch == s.executed + s.batch
  {
    hide Next, Enabled;
    if es != [] {
      RoundRuns(s, es[..|es| - 1]);
      assert es[|es| - 1] in es;
      RoundStep(Run(s, es[..|es| - 1]), es[|es| - 1]);
    }
  }

  lemma RoundStep(s: Loop, e: Step)
    requires s.pc == Running && Enabled(s, e) && e != EndPending
    ensures Next(s, e).pc == Running && Next(s, e).executed + Next(s, e).batch == s.executed + s.batch
  {
    if e.RunOne? {
      assert s.batch == [s.batch[0]] + s.batch[1..];
      assert s.executed + [s.batch[0]] + s.batch[1..] == s.executed + s.batch;
    }
  }

  // Under every interleaving, when a round ends it has executed all that was queued at the swap, in order, and
  // nothing that was queued later.
  lemma RoundDrains(s: Loop, es: seq<Step>)
    requires Inv(s) && s.pc == Swapping && IsRun(Next(s, Swap), es) && EndPending !in es
    requires Enabled(Run(Next(s, Swap), es), EndPending)
    ensures Run(Next(s, Swap), es).executed == s.executed + s.pending
  {
    hide IsRun, Run;
    RoundRuns(Next(s, Swap), es);
  }

  // Functors run by the loop alone: k calls execute the first k of the batch.
  lemma {:induction false} RunMany(s: Loop, k: nat)
    requires s.pc == Running && !s.selfOwes && k <= |s.batch|
    ensures
      var r := Run(s, seq(k, _ => RunOne));
      && IsRun(s, seq(k, _ => RunOne))
      && r == s.(executed := s.executed + s.batch[..k], batch := s.batch[k..])
  {
    var es: seq<Step> := seq(k, _ => RunOne);
    if k == 0 {
      assert s.executed + s.batch[..0] == s.executed;
    } else {
      assert es[..k - 1] == seq(k - 1, _ => RunOne);
      RunMany(s, k - 1);
      assert s.batch[k - 1..][1..] == s.batch[k..];
      assert s.executed + s.batch[..k - 1] + [s.batch[k - 1]] == s.executed + s.batch[..k];
    }
  }

  // A round can always end: it is enough that the loop thread goes on.
  lemma RoundCanEnd(s: Loop) returns (es: seq<Step>)
    requires Inv(s) && s.pc == Swapping
    ensures IsRun(Next(s, Swap), es) && EndPending !in es && Enabled(Run(Next(s, Swap), es), EndPending)
  {
    es := seq(|s.pending|, _ => RunOne);
    RunMany(Next(s, Swap), |s.pending|);
  }

  // ---------- The loop object ----------

  // Who calls queueInLoop.
  datatype Caller = LoopThread | Other(thread: ThreadId)

  datatype Request = Request(functor: Functor, caller: Caller)

  function Functors(rs: seq<Request>): (fs: seq<Functor>)
    ensures |fs| == |rs|
  {
    seq(|rs|, i requires 0 <= i < |rs| => rs[i].functor)
  }

  lemma FunctorsSnoc(rs: seq<Request>, r: Request)
    ensures Functors(rs + [r]) == Functors(rs) + [r.functor]
  {
  }

  function Concat(script: seq<seq<Request>>): (fs: seq<Functor>) {
    if script == [] then [] else Concat(script[..|script| - 1]) + Functors(script[|script| - 1])
  }

  lemma ConcatNext(script: seq<seq<Request>>, i: nat)
    requires i < |script|
    ensures Concat(script[..i + 1]) == Concat(script[..i]) + Functors(script[i])
  {
    assert script[..i + 1][..i] == script[..i];
  }

  class EventLoop {
    var pendingFunctors: seq<Functor>
    var callingPendingFunctors: bool
    var wakeups: nat
    ghost var pc: Pc
    ghost var executed: seq<Functor>
    ghost var batch: seq<Functor>
    ghost var pushed: seq<Functor>

    ghost function Abs(): Loop
      reads this
    {
      Loop(pc, false, callingPendingFunctors, false, pendingFunctors, batch, wakeups, {}, false, pushed, executed)
    }

    constructor ()
      ensures Abs() == Start([], 0, {}) && Inv(Abs())
    {
      pendingFunctors, callingPendingFunctors, wakeups := [], false, 0;
      pc, executed, batch, pushed := AtTest, [], [], [];
    }

    // queueInLoop: another thread always wakes the loop, the loop's own only while functors are being called.
    method QueueInLoop(f: Functor, caller: Caller)
      requires Inv(Abs()) && (caller.LoopThread? ==> Enabled(Abs(), SelfPush(f)))
      modifies this
      ensures Inv(Abs())
      ensures Abs() ==
        if caller.LoopThread? then Next(Next(old(Abs()), SelfPush(f)), SelfWakeup)
        else Next(Next(old(Abs()), Push(caller.thread, f)), Wakeup(caller.thread))
    {
      hide Inv;
      if caller.LoopThread? {
        NextInv(Abs(), SelfPush(f));
        NextInv(Next(Abs(), SelfPush(f)), SelfWakeup);
      } else {
        NextInv(Abs(), Push(caller.thread, f));
        NextInv(Next(Abs(), Push(caller.thread, f)), Wakeup(caller.thread));
      }
      pendingFunctors := pendingFunctors + [f];
      pushed := pushed + [f];
      if !caller.LoopThread? || callingPendingFunctors {
        if wakeups < COUNTER_MAX {
          wakeups := wakeups + 1;
        }
      }
    }

    // Requests that arrive while functors are being called: only the queue and the wakeups change.
    method QueueAll(requests: seq<Request>)
      requires Inv(Abs()) && (pc == Running || (pc == Swapping && FromOthers(requests)))
      modifies this
      ensures Inv(Abs()) && pc == old(pc) && callingPendingFunctors == old(callingPendingFunctors)
      ensures batch == old(batch) && executed == old(executed)
      ensures pendingFunctors == old(pendingFunctors) + Functors(requests)
    {
      hide Inv, Functors;
      NoRequests();
      assert requests[..0] == [];
      for j := 0 to |requests|
        invariant Inv(Abs()) && pc == old(pc) && callingPendingFunctors == old(callingPendingFunctors)
        invariant batch == old(batch) && executed == old(executed)
        invariant pendingFunctors == old(pendingFunctors) + Functors(requests[..j])
      {
        assert requests[..j + 1] == requests[..j] + [requests[j]];
        FunctorsSnoc(requests[..j], requests[j]);
        QueueInLoop(requests[j].functor, requests[j].caller);
      }
      assert requests[..|requests|] == requests;
    }

    // One functor runs; `requests` are queued meanwhile.
    method CallFunctor(f: Functor, requests: seq<Request>)
      requires Inv(Abs()) && pc == Running && callingPendingFunctors && batch != [] && batch[0] == f
      modifies this
      ensures Inv(Abs()) && pc == Running && callingPendingFunctors && batch == old(batch)[1..]
      ensures executed == old(executed) + [f]
      ensures pendingFunctors == old(pendingFunctors) + Functors(requests)
    {
      hide Inv, Functors;
      NextInv(Abs(), RunOne);
      executed, batch := executed + [f], batch[1..];
      QueueAll(requests);
    }

    // doPendingFunctors.  Other threads push `before` ahead of the swap; script[i] is what the i-th functor queues
    // and other threads queue meanwhile.  These wait for the next round, which a wakeup brings about.
    method DoPendingFunctors(before: seq<Request>, script: seq<seq<Request>>)
      requires Inv(Abs()) && pc == Dispatching && FromOthers(before)
      requires |script| == |pendingFunctors| + |before|
      modifies this
      ensures Inv(Abs()) && pc == AtTest && !callingPendingFunctors
      ensures executed == old(executed) + old(pendingFunctors) + Functors(before)
      ensures pendingFunctors == Concat(script)
      ensures pendingFunctors != [] ==> wakeups > 0
    {
      hide Inv, Functors, Concat;
      NextInv(Abs(), EndDispatch);
      callingPendingFunctors := true;
      pc := Swapping;
      QueueAll(before);
      NextInv(Abs(), Swap);
      var functors := pendingFunctors;
      pendingFunctors := [];
      batch, pc := functors, Running;
      CallAll(functors, script);
      NextInv(Abs(), EndPending);
      callingPendingFunctors := false;
      pc := AtTest;
      if pendingFunctors != [] {
        WokenAtTest(Abs());
      }
    }

    // The loop of doPendingFunctors.
    method CallAll(functors: seq<Functor>, script: seq<seq<Request>>)
      requires Inv(Abs()) && pc == Running && callingPendingFunctors && batch == functors && pendingFunctors == []
      requires |script| == |functors|
      modifies this
      ensures Inv(Abs()) && pc == Running && callingPendingFunctors && batch == []
      ensures executed == old(executed) + functors && pendingFunctors == Concat(script)
    {
      hide Inv, Functors, Concat;
      NoScript();
      assert functors[0..] == functors && script[..0] == [];
      for i := 0 to |functors|
        invariant Inv(Abs()) && pc == Running && callingPendingFunctors && batch == functors[i..]
        invariant executed == old(executed) + functors[..i] && pendingFunctors == Concat(script[..i])
      {
        assert functors[..i + 1] == functors[..i] + [functors[i]] && functors[i..][1..] == functors[i + 1..];
        ConcatNext(script, i);
        CallFunctor(functors[i], script[i]);
      }
      assert functors[..|functors|] == functors && script[..|script|] == script;
    }
  }

  lemma NoScript()
    ensures Concat([]) == []
  {
  }

  ghost predicate FromOthers(rs: seq<Request>) {
    forall i :: 0 <= i < |rs| ==> rs[i].caller.Other?
  }

  lemma NoRequests()
    ensures Functors([]) == []
  {
  }

  lemma WokenAtTest(s: Loop)
    requires Inv(s) && s.pc == AtTest && s.owing == {} && s.pending != []
    ensures s.counter > 0
  {
  }
}
