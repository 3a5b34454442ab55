/**
 The timer queue of net/timer_queue.cc on its loop thread.

 Timers live at addresses of an explicit heap, so that using or freeing a dead timer is visible (`Crash`),
 and addresses may be reused.  Callbacks re-enter `Add` and `Cancel` between the steps of a batch.
 */
module Timers {
  import opened Outcomes

  const PTR_MAX: nat := 0xFFFF_FFFF_FFFF_FFFF
  const MIN_DELAY := 100

  datatype Timer = Timer(expiration: int, interval: int, sequence: int)

  // An entry of timers_, ordered by time and then by address.
  datatype Entry = Entry(when: int, addr: nat)

  // An entry of activeTimers_; also what a TimerId holds.
  datatype TimerId = TimerId(addr: nat, sequence: int)

  datatype Deadline = Disarmed | ArmedFor(time: int)

  // `batch` is the vector of expired timers while handleRead is at work; `next` of them have been run.
  // `fired` and `freed` record the sequence numbers of the timers run and deleted.
  datatype Queue = Queue(
    heap: map<nat, Timer>, created: int,
    timers: seq<Entry>, active: set<TimerId>,
    calling: bool, canceling: set<TimerId>,
    batch: seq<Entry>, next: nat, batchTime: int,
    timerfd: Deadline, armedAt: int,
    fired: seq<int>, freed: seq<int>)

  datatype Event =
    | Add(addr: nat, when: int, interval: int, time: int)
    | Cancel(id: TimerId)
    | Begin(now: int)
    | RunNext
    | End(time: int)

  const EMPTY := Queue(map[], 0, [], {}, false, {}, [], 0, 0, Disarmed, 0, [], [])

  // ---------- The ordered set of entries ----------

  predicate Less(e: Entry, f: Entry) {
    e.when < f.when || (e.when == f.when && e.addr < f.addr)
  }

  ghost predicate Sorted(ts: seq<Entry>) {
    forall i, j :: 0 <= i < j < |ts| ==> Less(ts[i], ts[j])
  }

  function Insert(ts: seq<Entry>, e: Entry): (r: seq<Entry>) {
    if ts == [] || Less(e, ts[0]) then [e] + ts else [ts[0]] + Insert(ts[1..], e)
  }

  function Erase(ts: seq<Entry>, e: Entry): (r: seq<Entry>) {
    if ts == [] then [] else if ts[0] == e then ts[1..] else [ts[0]] + Erase(ts[1..], e)
  }

  // lower_bound: how many leading entries are less than the sentry.
  function LowerBound(ts: seq<Entry>, sentry: Entry): (k: nat)
    ensures k <= |ts|
  {
    if ts == [] || !Less(ts[0], sentry) then 0 else 1 + LowerBound(ts[1..], sentry)
  }

  lemma {:induction false} InsertSorted(ts: seq<Entry>, e: Entry)
    requires Sorted(ts) && e !in ts
    ensures Sorted(Insert(ts, e)) && |Insert(ts, e)| == |ts| + 1
    ensures forall x :: x in Insert(ts, e) <==> x in ts || x == e
    ensures Insert(ts, e)[0] == if ts == [] || Less(e, ts[0]) then e else ts[0]
  {
    if !(ts == [] || Less(e, ts[0])) {
      InsertSorted(ts[1..], e);
      var r := Insert(ts[1..], e);
      assert forall x :: x in ts <==> x == ts[0] || x in ts[1..];
      forall j | 0 <= j < |r| ensures Less(ts[0], r[j]) {
        assert r[j] in r;
      }
    } else {
      assert forall x :: x in [e] + ts <==> x == e || x in ts;
    }
  }

  lemma {:induction false} EraseSorted(ts: seq<Entry>, e: Entry)
    requires Sorted(ts) && e in ts
    ensures Sorted(Erase(ts, e)) && |Erase(ts, e)| == |ts| - 1
    ensures forall x :: x in Erase(ts, e) <==> x in ts && x != e
    ensures Erase(ts, e) != [] ==> !Less(Erase(ts, e)[0], ts[0])
  {
    assert forall x :: x in ts <==> x == ts[0] || x in ts[1..];
    if ts[0] == e {
      forall x | x in ts[1..] ensures x != e {
      }
    } else {
      EraseSorted(ts[1..], e);
      var r := Erase(ts[1..], e);
      forall j | 0 <= j < |r| ensures Less(ts[0], r[j]) {
        assert r[j] in r;
      }
    }
  }

  lemma {:induction false} LowerBoundSplits(ts: seq<Entry>, sentry: Entry)
    requires Sorted(ts)
    ensures forall i :: 0 <= i < LowerBound(ts, sentry) ==> Less(ts[i], sentry)
    ensures forall i :: LowerBound(ts, sentry) <= i < |ts| ==> !Less(ts[i], sentry)
  {
    if ts != [] && Less(ts[0], sentry) {
      LowerBoundSplits(ts[1..], sentry);
    }
  }

  // ---------- The operations ----------

  // howMuchTimeFromNow: seconds and nanoseconds until `when`, at least 100 microseconds.
  function HowMuchTimeFromNow(when: int, now: int): (ts: (int, int))
    ensures ts.0 * 1000000 + ts.1 / 1000 == if when - now < MIN_DELAY then MIN_DELAY else when - now
    ensures 0 <= ts.0 && 0 <= ts.1 < 1000000000
  {
    var microseconds := if when - now < MIN_DELAY then MIN_DELAY else when - now;
    (microseconds / 1000000, microseconds % 1000000 * 1000)
  }

  // resetTimerfd at clock time `now`.
  function ResetTimerfd(q: Queue, when: int, now: int): Queue {
    var ts := HowMuchTimeFromNow(when, now);
    q.(timerfd := ArmedFor(now + ts.0 * 1000000 + ts.1 / 1000), armedAt := now)
  }

  function IdOf(q: Queue, addr: nat): TimerId
    requires addr in q.heap
  {
    TimerId(addr, q.heap[addr].sequence)
  }

  function EntryOf(q: Queue, addr: nat): Entry
    requires addr in q.heap
  {
    Entry(q.heap[addr].expiration, addr)
  }

  // What the operations assert when they begin and when they end.
  predicate SameSize(q: Queue) {
    |q.timers| == |q.active|
  }

  function Checked(q: Queue): Outcome<Queue> {
    if SameSize(q) then Ok(q) else Crash
  }

  // insert: both indexes get the timer; it must be in neither.
  function InsertTimer(q: Queue, addr: nat): Outcome<Queue> {
    if !SameSize(q) || addr !in q.heap || EntryOf(q, addr) in q.timers || IdOf(q, addr) in q.active then Crash else
    Checked(q.(timers := Insert(q.timers, EntryOf(q, addr)), active := q.active + {IdOf(q, addr)}))
  }

  predicate EarliestChanged(q: Queue, when: int) {
    q.timers == [] || when < q.timers[0].when
  }

  // addTimer and addTimerInLoop: a new Timer at `addr`.
  function AddTimer(q: Queue, addr: nat, when: int, interval: int, time: int): Outcome<Queue> {
    var q1 := q.(heap := q.heap[addr := Timer(when, interval, q.created + 1)], created := q.created + 1);
    var changed := EarliestChanged(q1, when);
    match InsertTimer(q1, addr)
    case Crash => Crash
    case Ok(q2) => Ok(if changed then ResetTimerfd(q2, when, time) else q2)
  }

  function Free(q: Queue, addr: nat): Queue
    requires addr in q.heap
  {
    q.(heap := q.heap - {addr}, freed := q.freed + [q.heap[addr].sequence])
  }

  // cancelInLoop.
  function CancelTimer(q: Queue, id: TimerId): Outcome<Queue> {
    if !SameSize(q) then Crash
    else if id in q.active then
      if id.addr !in q.heap || EntryOf(q, id.addr) !in q.timers then Crash else
      var q1 := q.(timers := Erase(q.timers, EntryOf(q, id.addr)), active := q.active - {id});
      Checked(Free(q1, id.addr))
    else if q.calling then Ok(q.(canceling := q.canceling + {id}))
    else Ok(q)
  }

  // Takes the expired timers `es` out of activeTimers_, one after the other.
  function Deactivate(q: Queue, es: seq<Entry>): Outcome<Queue>
    decreases |es|
  {
    if es == [] then Ok(q)
    else if es[0].addr !in q.heap || IdOf(q, es[0].addr) !in q.active then Crash
    else Deactivate(q.(active := q.active - {IdOf(q, es[0].addr)}), es[1..])
  }

  // readTimerfd: an expired one-shot timer is consumed, one still running is not.
  function ReadTimerfd(q: Queue, now: int): Queue {
    if q.timerfd.ArmedFor? && q.timerfd.time <= now then q.(timerfd := Disarmed) else q
  }

  // getExpired.
  function GetExpired(q: Queue, now: int): Outcome<(Queue, seq<Entry>)> {
    var k := LowerBound(q.timers, Entry(now, PTR_MAX));
    if !SameSize(q) || (k < |q.timers| && !(now < q.timers[k].when)) then Crash else
    match Deactivate(q.(timers := q.timers[k..]), q.timers[..k])
    case Crash => Crash
    case Ok(q1) => if SameSize(q1) then Ok((q1, q.timers[..k])) else Crash
  }

  // handleRead up to the first callback.
  function BeginBatch(q: Queue, now: int): Outcome<Queue> {
    match GetExpired(ReadTimerfd(q, now), now)
    case Crash => Crash
    case Ok((q1, expired)) => Ok(q1.(batch := expired, next := 0, batchTime := now, calling := true, canceling := {}))
  }

  // One callback starts.
  function RunTimer(q: Queue): Outcome<Queue> {
    if q.next >= |q.batch| || q.batch[q.next].addr !in q.heap then Crash else
    Ok(q.(fired := q.fired + [q.heap[q.batch[q.next].addr].sequence], next := q.next + 1))
  }

  // One round of the loop in reset, on the first timer of the batch.
  function ResetOne(q: Queue): Outcome<Queue>
    requires q.batch != []
  {
    var addr := q.batch[0].addr;
    if addr !in q.heap then Crash else
    var t := q.heap[addr];
    var q1 := q.(batch := q.batch[1..]);
    if t.interval > 0 && IdOf(q, addr) !in q.canceling then
      InsertTimer(q1.(heap := q.heap[addr := t.(expiration := q.batchTime + t.interval)]), addr)
    else Ok(Free(q1, addr))
  }

  function ResetAll(q: Queue): Outcome<Queue>
    decreases |q.batch|
  {
    if q.batch == [] then Ok(q) else
    match ResetOne(q)
    case Crash => Crash
    case Ok(q1) => if |q1.batch| < |q.batch| then ResetAll(q1) else Crash
  }

  // The end of reset: arm the timerfd for the earliest timer.
  function Rearm(q: Queue, time: int): Outcome<Queue> {
    if q.timers == [] then Ok(q)
    else if q.timers[0].addr !in q.heap then Crash
    else
      var nextExpire := q.heap[q.timers[0].addr].expiration;
      Ok(if nextExpire > 0 then ResetTimerfd(q, nextExpire, time) else q)
  }

  // handleRead after the last callback.
  function EndBatch(q: Queue, time: int): Outcome<Queue> {
    match ResetAll(q.(calling := false, next := 0))
    case Crash => Crash
    case Ok(q1) => Rearm(q1, time)
  }

  function Step(q: Queue, e: Event): Outcome<Queue> {
    match e
    case Add(addr, when, interval, time) => AddTimer(q, addr, when, interval, time)
    case Cancel(id) => CancelTimer(q, id)
    case Begin(now) => BeginBatch(q, now)
    case RunNext => RunTimer(q)
    case End(time) => EndBatch(q, time)
  }

  // What the allocator, the clock and the shape of handleRead guarantee about the next event.
  predicate Admissible(q: Queue, e: Event) {
    match e
    case Add(addr, when, interval, time) => addr !in q.heap && addr < PTR_MAX
    case Cancel(id) => true
    case Begin(now) => !q.calling && now > 0
    case RunNext => q.calling && q.next < |q.batch|
    case End(time) => q.calling && q.next == |q.batch|
  }

  // ---------- The invariant ----------

  ghost predicate Pending(q: Queue, a: nat) {
    a in q.heap && EntryOf(q, a) in q.timers
  }

  ghost predicate InBatch(q: Queue, a: nat) {
    exists i :: 0 <= i < |q.batch| && q.batch[i].addr == a
  }

  // timers_ and activeTimers_ hold the same live timers, keyed by their current expiration.
  ghost predicate IndexesAgree(q: Queue) {
    && Sorted(q.timers)
    && (forall e :: e in q.timers ==> e.addr in q.heap && q.heap[e.addr].expiration == e.when)
    && forall id :: id in q.active <==> Pending(q, id.addr) && id == IdOf(q, id.addr)
  }

  // The batch is disjoint from both indexes; nothing else is alive.
  ghost predicate BatchApart(q: Queue) {
    && (forall i :: 0 <= i < |q.batch| ==> q.batch[i].addr in q.heap && !Pending(q, q.batch[i].addr))
    && (forall i, j :: 0 <= i < j < |q.batch| ==> q.batch[i].addr != q.batch[j].addr)
    && forall a :: a in q.heap ==> Pending(q, a) || InBatch(q, a)
  }

  // Sequence numbers identify timers for ever: live ones are distinct, freed ones are distinct and gone.
  ghost predicate SequencesUnique(q: Queue) {
    && q.created >= 0
    && (forall a :: a in q.heap ==> 1 <= q.heap[a].sequence <= q.created && a < PTR_MAX)
    && (forall a, b :: a in q.heap && b in q.heap && a != b ==> q.heap[a].sequence != q.heap[b].sequence)
    && (forall i :: 0 <= i < |q.freed| ==> Dead(q, q.freed[i]))
    && forall i, j :: 0 <= i < j < |q.freed| ==> q.freed[i] != q.freed[j]
  }

  // No timer has or will ever again have this sequence number.
  ghost predicate Dead(q: Queue, sequence: int) {
    sequence <= q.created && forall a :: a in q.heap ==> q.heap[a].sequence != sequence
  }

  ghost predicate Positive(q: Queue) {
    q.batch != [] ==> q.batchTime > 0
  }

  ghost predicate Core(q: Queue) {
    IndexesAgree(q) && BatchApart(q) && SequencesUnique(q) && Positive(q)
  }

  // While no batch runs, a pending timer has the timerfd armed (or already readable) in time.
  ghost predicate NotForgotten(q: Queue) {
    q.timers != [] ==> q.timerfd.ArmedFor? && q.timerfd.time <= Max(q.timers[0].when, q.armedAt + MIN_DELAY)
  }

  // The end of a batch does not arm the timerfd for an expiration that is not positive; adding it did.
  ghost predicate OverdueArmed(q: Queue) {
    q.timers != [] && q.timers[0].when <= 0 ==> NotForgotten(q)
  }

  function Max(x: int, y: int): int {
    if x < y then y else x
  }

  ghost predicate Inv(q: Queue) {
    && Core(q) && q.next <= |q.batch|
    && (q.calling ==> q.batchTime > 0 && OverdueArmed(q))
    && (!q.calling ==> q.batch == [] && NotForgotten(q))
  }

  // ---------- One timer on its way in or out ----------

  // Like Core, but live timer `a` is in neither index and not in the batch.
  ghost predicate Loose(q: Queue, a: nat) {
    && IndexesAgree(q) && SequencesUnique(q) && Positive(q)
    && a in q.heap && !Pending(q, a) && !InBatch(q, a)
    && (forall i :: 0 <= i < |q.batch| ==> q.batch[i].addr in q.heap && !Pending(q, q.batch[i].addr))
    && (forall i, j :: 0 <= i < j < |q.batch| ==> q.batch[i].addr != q.batch[j].addr)
    && forall b :: b in q.heap && b != a ==> Pending(q, b) || InBatch(q, b)
  }

  lemma SequencesKept(q: Queue, r: Queue)
    requires SequencesUnique(q) && r.created == q.created && r.freed == q.freed && r.heap.Keys == q.heap.Keys
    requires forall a :: a in q.heap ==> r.heap[a].sequence == q.heap[a].sequence
    ensures SequencesUnique(r)
  {
    forall i | 0 <= i < |q.freed| ensures Dead(r, q.freed[i]) {
      assert Dead(q, q.freed[i]);
    }
  }

  ghost function WithTimer(q: Queue, a: nat): Queue
    requires a in q.heap
  {
    q.(timers := Insert(q.timers, EntryOf(q, a)), active := q.active + {IdOf(q, a)})
  }

  lemma WithTimerPending(q: Queue, a: nat, b: nat)
    requires IndexesAgree(q) && a in q.heap && !Pending(q, a)
    ensures Pending(WithTimer(q, a), b) <==> Pending(q, b) || b == a
  {
    InsertSorted(q.timers, EntryOf(q, a));
  }

  lemma WithTimerIndexes(q: Queue, a: nat)
    requires IndexesAgree(q) && a in q.heap && !Pending(q, a)
    ensures IndexesAgree(WithTimer(q, a))
  {
    hide Insert;
    InsertSorted(q.timers, EntryOf(q, a));
  }

  lemma WithTimerCore(q: Queue, a: nat)
    requires Loose(q, a)
    ensures Core(WithTimer(q, a))
  {
    hide SequencesUnique, IndexesAgree, Insert, Pending;
    var r := WithTimer(q, a);
    WithTimerIndexes(q, a);
    forall b ensures Pending(r, b) <==> Pending(q, b) || b == a {
      WithTimerPending(q, a, b);
    }
    forall b ensures InBatch(r, b) <==> InBatch(q, b) {
    }
    forall i | 0 <= i < |q.batch| ensures !Pending(r, q.batch[i].addr) {
      assert InBatch(q, q.batch[i].addr);
    }
    SequencesKept(q, r);
  }

  lemma LooseInsert(q: Queue, a: nat)
    requires Loose(q, a)
    ensures InsertTimer(q, a).Ok? && Core(InsertTimer(q, a).value)
    ensures InsertTimer(q, a).value.timers == Insert(q.timers, EntryOf(q, a))
    ensures InsertTimer(q, a).value.timers[0] ==
      if q.timers == [] || Less(EntryOf(q, a), q.timers[0]) then EntryOf(q, a) else q.timers[0]
  {
    hide Insert;
    InsertSorted(q.timers, EntryOf(q, a));
    WithTimerCore(q, a);
    SizesAgree(q);
    SizesAgree(WithTimer(q, a));
  }

  // Two queues with the same batch.
  lemma InBatchSame(q: Queue, r: Queue, a: nat)
    requires r.batch == q.batch
    ensures InBatch(r, a) <==> InBatch(q, a)
  {
  }

  lemma FreePending(q: Queue, a: nat, b: nat)
    requires Loose(q, a)
    ensures Pending(Free(q, a), b) <==> Pending(q, b)
  {
    hide IndexesAgree, SequencesUnique, Positive;
  }

  lemma FreeIndexes(q: Queue, a: nat)
    requires Loose(q, a)
    ensures IndexesAgree(Free(q, a))
  {
    hide SequencesUnique, Positive, Sorted;
  }

  lemma FreeSequences(q: Queue, a: nat)
    requires SequencesUnique(q) && a in q.heap
    ensures SequencesUnique(Free(q, a)) && Dead(Free(q, a), q.heap[a].sequence)
  {
    var r := Free(q, a);
    forall i | 0 <= i < |q.freed| ensures Dead(r, q.freed[i]) && q.freed[i] != q.heap[a].sequence {
      assert Dead(q, q.freed[i]);
    }
    assert Dead(r, q.heap[a].sequence);
  }

  lemma LooseFree(q: Queue, a: nat)
    requires Loose(q, a)
    ensures Core(Free(q, a)) && Dead(Free(q, a), q.heap[a].sequence)
  {
    hide SequencesUnique, IndexesAgree, Pending, Dead;
    var r := Free(q, a);
    forall b ensures (Pending(r, b) <==> Pending(q, b)) && (InBatch(r, b) <==> InBatch(q, b)) {
      FreePending(q, a, b);
      InBatchSame(q, r, b);
    }
    forall i | 0 <= i < |q.batch| ensures q.batch[i].addr in r.heap {
      assert InBatch(q, q.batch[i].addr);
    }
    FreeIndexes(q, a);
    FreeSequences(q, a);
  }

  ghost function Created(q: Queue, a: nat, when: int, interval: int): Queue {
    q.(heap := q.heap[a := Timer(when, interval, q.created + 1)], created := q.created + 1)
  }

  lemma CreatedPending(q: Queue, a: nat, when: int, interval: int, b: nat)
    requires IndexesAgree(q) && a !in q.heap
    ensures Pending(Created(q, a, when, interval), b) <==> Pending(q, b)
  {
    hide Sorted;
    assert Entry(when, a) !in q.timers;
  }

  lemma CreatedIndexes(q: Queue, a: nat, when: int, interval: int)
    requires IndexesAgree(q) && a !in q.heap
    ensures IndexesAgree(Created(q, a, when, interval))
  {
    hide Sorted;
    assert Entry(when, a) !in q.timers;
  }

  lemma CreatedSequences(q: Queue, a: nat, when: int, interval: int)
    requires SequencesUnique(q) && a !in q.heap && a < PTR_MAX
    ensures SequencesUnique(Created(q, a, when, interval))
  {
    var r := Created(q, a, when, interval);
    forall i | 0 <= i < |q.freed| ensures Dead(r, q.freed[i]) {
      assert Dead(q, q.freed[i]);
    }
  }

  lemma AddLoose(q: Queue, a: nat, when: int, interval: int)
    requires Core(q) && a !in q.heap && a < PTR_MAX
    ensures Loose(Created(q, a, when, interval), a)
  {
    hide SequencesUnique, IndexesAgree, Pending;
    var r := Created(q, a, when, interval);
    forall b ensures (Pending(r, b) <==> Pending(q, b)) && (InBatch(r, b) <==> InBatch(q, b)) {
      CreatedPending(q, a, when, interval, b);
      InBatchSame(q, r, b);
    }
    PendingAlive(q, a);
    CreatedIndexes(q, a, when, interval);
    CreatedSequences(q, a, when, interval);
  }

  lemma PendingAlive(q: Queue, a: nat)
    ensures Pending(q, a) ==> a in q.heap
  {
  }

  ghost function WithoutTimer(q: Queue, a: nat): Queue
    requires a in q.heap
  {
    q.(timers := Erase(q.timers, EntryOf(q, a)), active := q.active - {IdOf(q, a)})
  }

  lemma WithoutPending(q: Queue, a: nat, b: nat)
    requires IndexesAgree(q) && Pending(q, a)
    ensures Pending(WithoutTimer(q, a), b) <==> Pending(q, b) && b != a
  {
    hide Erase;
    EraseSorted(q.timers, EntryOf(q, a));
  }

  lemma WithoutIndexes(q: Queue, a: nat)
    requires IndexesAgree(q) && Pending(q, a)
    ensures IndexesAgree(WithoutTimer(q, a))
  {
    hide Erase;
    EraseSorted(q.timers, EntryOf(q, a));
  }

  lemma ActiveIs(q: Queue, id: TimerId)
    requires IndexesAgree(q) && id in q.active
    ensures Pending(q, id.addr) && id.addr in q.heap && EntryOf(q, id.addr) in q.timers && IdOf(q, id.addr) == id
  {
  }

  lemma CancelLoose(q: Queue, id: TimerId)
    requires Core(q) && id in q.active
    ensures id.addr in q.heap && EntryOf(q, id.addr) in q.timers && q.heap[id.addr].sequence == id.sequence
    ensures Loose(q.(timers := Erase(q.timers, EntryOf(q, id.addr)), active := q.active - {id}), id.addr)
  {
    hide SequencesUnique, IndexesAgree, Pending, Erase;
    ActiveIs(q, id);
    var r := WithoutTimer(q, id.addr);
    forall b ensures (Pending(r, b) <==> Pending(q, b) && b != id.addr) && (InBatch(r, b) <==> InBatch(q, b)) {
      WithoutPending(q, id.addr, b);
      InBatchSame(q, r, b);
    }
    WithoutIndexes(q, id.addr);
    SequencesKept(q, r);
  }

  // Taking the first timer off the batch, with any new expiration.
  lemma PopLoose(q: Queue, when: int)
    requires Core(q) && q.batch != []
    ensures q.batch[0].addr in q.heap && Loose(Popped(q, when), q.batch[0].addr)
  {
    hide SequencesUnique, IndexesAgree, Pending;
    var a := q.batch[0].addr;
    var r := Popped(q, when);
    forall b ensures Pending(r, b) <==> Pending(q, b) {
      PoppedPending(q, when, b);
    }
    forall b | b != a ensures InBatch(r, b) <==> InBatch(q, b) {
      if InBatch(q, b) {
        var i :| 0 <= i < |q.batch| && q.batch[i].addr == b;
        assert r.batch[i - 1].addr == b;
      }
    }
    PoppedIndexes(q, when);
    SequencesKept(q, r);
  }

  ghost function Popped(q: Queue, when: int): Queue
    requires q.batch != [] && q.batch[0].addr in q.heap
  {
    var a := q.batch[0].addr;
    q.(batch := q.batch[1..], heap := q.heap[a := q.heap[a].(expiration := when)])
  }

  lemma PoppedPending(q: Queue, when: int, b: nat)
    requires Core(q) && q.batch != []
    ensures q.batch[0].addr in q.heap && (Pending(Popped(q, when), b) <==> Pending(q, b))
  {
    hide SequencesUnique, Positive, Sorted;
    assert forall e :: e in q.timers ==> Pending(q, e.addr);
  }

  lemma PoppedIndexes(q: Queue, when: int)
    requires Core(q) && q.batch != []
    ensures q.batch[0].addr in q.heap && IndexesAgree(Popped(q, when))
  {
    hide SequencesUnique, Positive, Sorted;
    assert forall e :: e in q.timers ==> Pending(q, e.addr);
  }

  // ---------- Each step is safe and keeps the invariant ----------

  lemma ResetOneCore(q: Queue)
    requires Core(q) && q.batch != []
    ensures ResetOne(q).Ok? && Core(ResetOne(q).value) && ResetOne(q).value.batch == q.batch[1..]
    ensures OverdueArmed(q) ==> OverdueArmed(ResetOne(q).value)
  {
    hide Core, Loose;
    var a := q.batch[0].addr;
    FirstOfBatch(q);
    var t := q.heap[a];
    if t.interval > 0 && IdOf(q, a) !in q.canceling {
      PopLoose(q, q.batchTime + t.interval);
      LooseInsert(q.(batch := q.batch[1..], heap := q.heap[a := t.(expiration := q.batchTime + t.interval)]), a);
    } else {
      PopLoose(q, t.expiration);
      assert q.heap[a := t.(expiration := t.expiration)] == q.heap;
      LooseFree(q.(batch := q.batch[1..]), a);
    }
  }

  lemma FirstOfBatch(q: Queue)
    requires Core(q) && q.batch != []
    ensures q.batch[0].addr in q.heap && q.batchTime > 0
  {
  }

  lemma {:induction false} ResetAllCore(q: Queue)
    requires Core(q)
    ensures ResetAll(q).Ok? && Core(ResetAll(q).value) && ResetAll(q).value.batch == []
    ensures ResetAll(q).value.next == q.next && ResetAll(q).value.calling == q.calling
    ensures OverdueArmed(q) ==> OverdueArmed(ResetAll(q).value)
    decreases |q.batch|
  {
    hide Core, OverdueArmed;
    if q.batch != [] {
      ResetOneCore(q);
      ResetAllCore(ResetOne(q).value);
    }
  }

  ghost function Ids(q: Queue, es: seq<Entry>): set<TimerId> {
    set e | e in es && e.addr in q.heap :: IdOf(q, e.addr)
  }

  lemma {:induction false} DeactivateAll(q: Queue, es: seq<Entry>)
    requires forall i :: 0 <= i < |es| ==> es[i].addr in q.heap && IdOf(q, es[i].addr) in q.active
    requires forall i, j :: 0 <= i < j < |es| ==> es[i].addr != es[j].addr
    ensures Deactivate(q, es) == Ok(q.(active := q.active - Ids(q, es)))
    decreases |es|
  {
    if es == [] {
      assert q.active - Ids(q, es) == q.active;
    } else {
      var r := q.(active := q.active - {IdOf(q, es[0].addr)});
      DeactivateAll(r, es[1..]);
      assert es == [es[0]] + es[1..];
      assert r.active - Ids(r, es[1..]) == q.active - Ids(q, es);
    }
  }

  // What getExpired takes out: exactly the timers due by `now`, in order.
  lemma ExpiredSplit(q: Queue, now: int)
    requires Core(q)
    ensures
      var k := LowerBound(q.timers, Entry(now, PTR_MAX));
      && (forall i :: 0 <= i < k ==> q.timers[i].when <= now)
      && (forall i :: k <= i < |q.timers| ==> q.timers[i].when > now)
  {
    LowerBoundSplits(q.timers, Entry(now, PTR_MAX));
    assert forall i :: 0 <= i < |q.timers| ==> q.timers[i] in q.timers;
  }

  lemma TimersDistinct(q: Queue)
    requires IndexesAgree(q)
    ensures forall i, j :: 0 <= i < j < |q.timers| ==> q.timers[i].addr != q.timers[j].addr
  {
    forall i, j | 0 <= i < j < |q.timers| ensures q.timers[i].addr != q.timers[j].addr {
      assert q.timers[i] in q.timers && q.timers[j] in q.timers;
    }
  }

  // The queue without its first k timers.
  ghost function SplitAt(q: Queue, k: nat): Queue
    requires k <= |q.timers|
  {
    q.(timers := q.timers[k..], active := q.active - Ids(q, q.timers[..k]))
  }

  ghost predicate Due(q: Queue, k: nat, a: nat)
    requires k <= |q.timers|
  {
    a in q.heap && EntryOf(q, a) in q.timers[..k]
  }

  lemma SplitEntry(q: Queue, k: nat, e: Entry)
    requires Sorted(q.timers) && k <= |q.timers|
    ensures e in q.timers <==> e in q.timers[..k] || e in q.timers[k..]
    ensures !(e in q.timers[..k] && e in q.timers[k..])
  {
    hide Less;
    assert q.timers == q.timers[..k] + q.timers[k..];
    if e in q.timers[..k] && e in q.timers[k..] {
      var i :| 0 <= i < k && q.timers[..k][i] == e;
      var j :| 0 <= j < |q.timers| - k && q.timers[k..][j] == e;
      SortedDiffers(q.timers, i, k + j);
      assert false;
    }
  }

  lemma SortedDiffers(ts: seq<Entry>, i: nat, j: nat)
    requires Sorted(ts) && i < j < |ts|
    ensures ts[i] != ts[j]
  {
    assert Less(ts[i], ts[j]);
  }

  lemma SplitPending(q: Queue, k: nat, a: nat)
    requires IndexesAgree(q) && k <= |q.timers|
    ensures Pending(q, a) <==> Pending(SplitAt(q, k), a) || Due(q, k, a)
    ensures !(Pending(SplitAt(q, k), a) && Due(q, k, a))
  {
    hide Sorted, Ids;
    if a in q.heap {
      SplitEntry(q, k, EntryOf(q, a));
    }
  }

  lemma SplitId(q: Queue, k: nat, id: TimerId)
    requires IndexesAgree(q) && k <= |q.timers|
    ensures id in Ids(q, q.timers[..k]) <==> Due(q, k, id.addr) && id == IdOf(q, id.addr)
  {
    hide Sorted;
    if id in Ids(q, q.timers[..k]) {
      var e :| e in q.timers[..k] && e.addr in q.heap && IdOf(q, e.addr) == id;
      assert e in q.timers;
      assert EntryOf(q, id.addr) == e;
    }
  }

  lemma SplitSorted(ts: seq<Entry>, k: nat)
    requires Sorted(ts) && k <= |ts|
    ensures Sorted(ts[k..])
  {
    hide Less;
  }

  lemma SplitIndexes(q: Queue, k: nat)
    requires IndexesAgree(q) && k <= |q.timers|
    ensures IndexesAgree(SplitAt(q, k))
  {
    hide Sorted, Ids, Due;
    var r := SplitAt(q, k);
    SplitSorted(q.timers, k);
    assert forall e :: e in r.timers ==> e in q.timers;
    forall id ensures id in r.active <==> Pending(r, id.addr) && id == IdOf(r, id.addr) {
      SplitPending(q, k, id.addr);
      SplitId(q, k, id);
    }
  }

  lemma DueActive(q: Queue, k: nat, i: nat)
    requires IndexesAgree(q) && i < k <= |q.timers|
    ensures q.timers[i].addr in q.heap && IdOf(q, q.timers[i].addr) in q.active
  {
    hide Sorted;
    assert q.timers[i] in q.timers;
    assert Pending(q, q.timers[i].addr);
  }

  lemma GetExpiredOk(q: Queue, now: int)
    requires Core(q)
    ensures
      var k := LowerBound(q.timers, Entry(now, PTR_MAX));
      GetExpired(q, now) == Ok((SplitAt(q, k), q.timers[..k]))
  {
    hide IndexesAgree, BatchApart, SequencesUnique, Positive, LowerBound, Deactivate, Ids;
    ExpiredSplit(q, now);
    TimersDistinct(q);
    var k := LowerBound(q.timers, Entry(now, PTR_MAX));
    var q1 := q.(timers := q.timers[k..]);
    forall i | 0 <= i < k ensures q.timers[i].addr in q.heap && IdOf(q, q.timers[i].addr) in q.active {
      DueActive(q, k, i);
    }
    DeactivateAll(q1, q.timers[..k]);
    SameIds(q, q1, q.timers[..k]);
    SizesAgree(q);
    SplitIndexes(q, k);
    SizesAgree(SplitAt(q, k));
  }

  lemma SameIds(q: Queue, r: Queue, es: seq<Entry>)
    requires r.heap == q.heap
    ensures Ids(r, es) == Ids(q, es)
  {
  }

  lemma BeginCore(q: Queue, now: int)
    requires Core(q) && q.batch == [] && now > 0
    ensures BeginBatch(q, now).Ok? && Core(BeginBatch(q, now).value)
    ensures
      var r := BeginBatch(q, now).value;
      && r.calling && r.next == 0 && r.batchTime == now
      && q.timers == r.batch + r.timers
      && (forall e :: e in r.batch ==> e.when <= now) && (forall e :: e in r.timers ==> e.when > now)
      && r.heap == q.heap && r.created == q.created && r.freed == q.freed && r.fired == q.fired
      && r.canceling == {}
  {
    hide IndexesAgree, BatchApart, SequencesUnique, Positive, Pending, Ids, LowerBound, Deactivate;
    var q0 := ReadTimerfd(q, now);
    var k := LowerBound(q.timers, Entry(now, PTR_MAX));
    CoreKept(q, q0);
    GetExpiredOk(q0, now);
    ExpiredSplit(q0, now);
    var r := BeginBatch(q, now).value;
    assert q.timers == q.timers[..k] + q.timers[k..];
    BatchFromSplit(q0, r, k);
  }

  // Core looks only at the heap, the indexes, the batch and what was freed.
  lemma CoreKept(q: Queue, r: Queue)
    requires Core(q) && r.heap == q.heap && r.created == q.created && r.timers == q.timers && r.active == q.active
    requires r.batch == q.batch && r.batchTime == q.batchTime && r.freed == q.freed
    ensures Core(r)
  {
    hide SequencesUnique;
    forall a ensures Pending(r, a) <==> Pending(q, a) {
    }
    forall a ensures InBatch(r, a) <==> InBatch(q, a) {
    }
    SequencesKept(q, r);
  }

  // The split-off timers become the batch.
  ghost predicate StartsBatch(q: Queue, r: Queue, k: nat)
    requires k <= |q.timers|
  {
    r.batchTime > 0 &&
    r == SplitAt(q, k).(batch := q.timers[..k], next := 0, batchTime := r.batchTime, calling := true, canceling := {})
  }

  lemma BatchFromSplit(q: Queue, r: Queue, k: nat)
    requires Core(q) && q.batch == [] && k <= |q.timers| && StartsBatch(q, r, k)
    ensures Core(r)
  {
    hide SequencesUnique, BatchApart, Ids, Sorted;
    SplitIndexes(q, k);
    SplitApart(q, r, k);
    SequencesKept(q, r);
    forall a ensures Pending(r, a) <==> Pending(SplitAt(q, k), a) {
    }
  }

  lemma SplitApart(q: Queue, r: Queue, k: nat)
    requires Core(q) && q.batch == [] && k <= |q.timers| && StartsBatch(q, r, k)
    ensures BatchApart(r)
  {
    hide SequencesUnique, Positive, Ids, IndexesAgree, Pending;
    forall a ensures Pending(r, a) <==> Pending(SplitAt(q, k), a) {
      PendingSame(r, SplitAt(q, k), a);
    }
    forall a | a in r.heap ensures Pending(r, a) || InBatch(r, a) {
      assert !InBatch(q, a);
      SplitPending(q, k, a);
      if Due(q, k, a) {
        var i :| 0 <= i < k && q.timers[..k][i] == EntryOf(q, a);
        assert r.batch[i].addr == a;
      }
    }
    forall i | 0 <= i < k ensures r.batch[i].addr in r.heap && !Pending(r, r.batch[i].addr) {
      DueAt(q, k, i);
      SplitPending(q, k, q.timers[i].addr);
    }
    TimersDistinct(q);
  }

  lemma PendingSame(q: Queue, r: Queue, a: nat)
    requires r.heap == q.heap && r.timers == q.timers
    ensures Pending(q, a) <==> Pending(r, a)
  {
  }

  lemma DueAt(q: Queue, k: nat, i: nat)
    requires IndexesAgree(q) && i < k <= |q.timers|
    ensures Due(q, k, q.timers[i].addr)
  {
    hide Sorted;
    assert q.timers[i] in q.timers && q.timers[..k][i] == q.timers[i];
  }

  lemma AddInv(q: Queue, addr: nat, when: int, interval: int, time: int)
    requires Inv(q) && addr !in q.heap && addr < PTR_MAX
    ensures AddTimer(q, addr, when, interval, time).Ok? && Inv(AddTimer(q, addr, when, interval, time).value)
  {
    hide Core, Loose, Insert, InsertTimer, HowMuchTimeFromNow;
    var q1 := Created(q, addr, when, interval);
    AddLoose(q, addr, when, interval);
    LooseInsert(q1, addr);
    InsertShape(q1, addr);
    var q2 := InsertTimer(q1, addr).value;
    CoreKept(q2, ResetTimerfd(q2, when, time));
  }

  lemma InsertShape(q: Queue, a: nat)
    requires InsertTimer(q, a).Ok?
    ensures a in q.heap && InsertTimer(q, a).value == WithTimer(q, a)
  {
  }

  lemma CancelInv(q: Queue, id: TimerId)
    requires Inv(q)
    ensures CancelTimer(q, id).Ok? && Inv(CancelTimer(q, id).value)
  {
    SizesAgree(q);
    if id in q.active {
      CancelLoose(q, id);
      var q1 := q.(timers := Erase(q.timers, EntryOf(q, id.addr)), active := q.active - {id});
      SizesAgree(q1);
      LooseFree(q1, id.addr);
      EraseSorted(q.timers, EntryOf(q, id.addr));
    } else {
      CoreKept(q, q.(canceling := q.canceling + {id}));
    }
  }

  lemma EndInv(q: Queue, time: int)
    requires Inv(q) && q.calling
    ensures EndBatch(q, time).Ok? && Inv(EndBatch(q, time).value)
  {
    hide Core, ResetAll, HowMuchTimeFromNow;
    var q0 := q.(calling := false, next := 0);
    CoreKept(q, q0);
    ResetAllCore(q0);
    var q1 := ResetAll(q0).value;
    if q1.timers != [] {
      FirstTimer(q1);
      CoreKept(q1, ResetTimerfd(q1, q1.timers[0].when, time));
    }
  }

  lemma FirstTimer(q: Queue)
    requires Core(q) && q.timers != []
    ensures q.timers[0].addr in q.heap && q.heap[q.timers[0].addr].expiration == q.timers[0].when
  {
    assert q.timers[0] in q.timers;
  }

  // No assertion of the queue fails, no dead timer is used or freed, and the invariant is kept.
  lemma StepSafe(q: Queue, e: Event)
    requires Inv(q) && Admissible(q, e)
    ensures Step(q, e).Ok? && Inv(Step(q, e).value)
  {
    hide Core;
    match e
    case Add(addr, when, interval, time) => AddInv(q, addr, when, interval, time);
    case Cancel(id) => CancelInv(q, id);
    case Begin(now) => BeginCore(q, now);
    case RunNext => RunInv(q);
    case End(time) => EndInv(q, time);
  }

  lemma RunInv(q: Queue)
    requires Inv(q) && q.calling && q.next < |q.batch|
    ensures RunTimer(q).Ok? && Inv(RunTimer(q).value)
  {
    CoreKept(q, RunTimer(q).value);
  }

  // ---------- Whole runs ----------

  function Run(q: Queue, es: seq<Event>): Outcome<Queue>
    decreases |es|
  {
    if es == [] then Ok(q) else
    match Step(q, es[0])
    case Crash => Crash
    case Ok(q1) => Run(q1, es[1..])
  }

  ghost predicate AdmissibleRun(q: Queue, es: seq<Event>)
    decreases |es|
  {
    es == [] ||
    (Admissible(q, es[0]) && (Step(q, es[0]).Ok? ==> AdmissibleRun(Step(q, es[0]).value, es[1..])))
  }

  lemma {:induction false} RunSafe(q: Queue, es: seq<Event>)
    requires Inv(q) && AdmissibleRun(q, es)
    ensures Run(q, es).Ok? && Inv(Run(q, es).value)
    decreases |es|
  {
    hide Inv, Step;
    if es != [] {
      StepSafe(q, es[0]);
      RunSafe(Step(q, es[0]).value, es[1..]);
    }
  }

  // Every run of the queue, whatever the callbacks add and cancel, is safe and ends with both indexes in step.
  lemma EveryRunSafe(es: seq<Event>)
    requires AdmissibleRun(EMPTY, es)
    ensures Run(EMPTY, es).Ok? && Inv(Run(EMPTY, es).value)
  {
    EmptyInv();
    RunSafe(EMPTY, es);
  }

  lemma EmptyInv()
    ensures Inv(EMPTY)
  {
  }

  // ---------- Cancelling is precise ----------

  // Between q and r no timer changed its sequence number and new ones got fresh numbers.
  ghost predicate SequencesFlow(q: Queue, r: Queue) {
    && q.created <= r.created
    && forall a :: a in r.heap ==>
      r.heap[a].sequence > q.created || (a in q.heap && q.heap[a].sequence == r.heap[a].sequence)
  }

  lemma {:induction false} ResetAllFlow(q: Queue)
    requires ResetAll(q).Ok?
    ensures SequencesFlow(q, ResetAll(q).value) && ResetAll(q).value.fired == q.fired
    decreases |q.batch|
  {
    if q.batch != [] {
      ResetAllFlow(ResetOne(q).value);
    }
  }

  lemma {:induction false} DeactivateFlow(q: Queue, es: seq<Entry>)
    requires Deactivate(q, es).Ok?
    ensures Deactivate(q, es).value.heap == q.heap && Deactivate(q, es).value.created == q.created
    ensures Deactivate(q, es).value.fired == q.fired
    decreases |es|
  {
    if es != [] {
      DeactivateFlow(q.(active := q.active - {IdOf(q, es[0].addr)}), es[1..]);
    }
  }

  // A dead sequence number stays dead, and no step runs a timer that has it.
  lemma StepDead(q: Queue, e: Event, sequence: int)
    requires Step(q, e).Ok? && Dead(q, sequence)
    ensures Dead(Step(q, e).value, sequence)
    ensures q.fired <= Step(q, e).value.fired && sequence !in Step(q, e).value.fired[|q.fired|..]
  {
    hide Insert, Erase, LowerBound, Deactivate, ResetAll;
    StepFlow(q, e);
  }

  // A step renames no timer and gives new ones fresh numbers; only RunNext fires.
  lemma StepFlow(q: Queue, e: Event)
    requires Step(q, e).Ok?
    ensures SequencesFlow(q, Step(q, e).value)
    ensures !e.RunNext? ==> Step(q, e).value.fired == q.fired
  {
    hide Insert, Erase, LowerBound, Deactivate, ResetAll;
    match e
    case Begin(now) =>
      var q0 := ReadTimerfd(q, now);
      var k := LowerBound(q.timers, Entry(now, PTR_MAX));
      DeactivateFlow(q0.(timers := q0.timers[k..]), q0.timers[..k]);
    case End(time) =>
      ResetAllFlow(q.(calling := false, next := 0));
    case _ =>
  }

  lemma {:induction false} RunDead(q: Queue, es: seq<Event>, sequence: int)
    requires Run(q, es).Ok? && Dead(q, sequence)
    ensures Dead(Run(q, es).value, sequence)
    ensures q.fired <= Run(q, es).value.fired && sequence !in Run(q, es).value.fired[|q.fired|..]
    decreases |es|
  {
    hide Step, Dead;
    if es != [] {
      var q1 := Step(q, es[0]).value;
      StepDead(q, es[0], sequence);
      RunDead(q1, es[1..], sequence);
      var r := Run(q1, es[1..]).value;
      assert r.fired[|q.fired|..] == q1.fired[|q.fired|..] + r.fired[|q1.fired|..];
    }
  }

  // A pending timer that is cancelled never fires, in any later run.
  lemma CancelledNeverFires(q: Queue, id: TimerId, es: seq<Event>)
    requires Inv(q) && id in q.active
    requires CancelTimer(q, id).Ok? && Run(CancelTimer(q, id).value, es).Ok?
    ensures
      var r := Run(CancelTimer(q, id).value, es).value;
      q.fired <= r.fired && id.sequence !in r.fired[|q.fired|..]
  {
    CancelLoose(q, id);
    LooseFree(q.(timers := Erase(q.timers, EntryOf(q, id.addr)), active := q.active - {id}), id.addr);
    RunDead(CancelTimer(q, id).value, es, id.sequence);
  }

  // Cancelling touches no timer but the one with this very sequence number, however addresses are reused.
  lemma CancelTouchesOne(q: Queue, id: TimerId, a: nat)
    requires Inv(q) && a in q.heap && q.heap[a].sequence != id.sequence
    ensures CancelTimer(q, id).Ok?
    ensures
      var r := CancelTimer(q, id).value;
      && a in r.heap && r.heap[a] == q.heap[a]
      && (Pending(r, a) <==> Pending(q, a)) && (InBatch(r, a) <==> InBatch(q, a))
      && (IdOf(q, a) in r.active <==> IdOf(q, a) in q.active)
      && (IdOf(q, a) in r.canceling <==> IdOf(q, a) in q.canceling)
  {
    CancelInv(q, id);
    if id in q.active {
      CancelLoose(q, id);
      EraseSorted(q.timers, EntryOf(q, id.addr));
    }
  }

  // The timer with this sequence number is in the running batch and was cancelled during it.
  ghost predicate Doomed(q: Queue, id: TimerId) {
    q.calling && id.addr in q.heap && IdOf(q, id.addr) == id && InBatch(q, id.addr) && id in q.canceling
  }

  lemma CancelDooms(q: Queue, id: TimerId)
    requires Inv(q) && q.calling && id.addr in q.heap && IdOf(q, id.addr) == id && InBatch(q, id.addr)
    ensures CancelTimer(q, id).Ok? && Doomed(CancelTimer(q, id).value, id)
  {
    var i :| 0 <= i < |q.batch| && q.batch[i].addr == id.addr;
    assert !Pending(q, q.batch[i].addr);
    CancelInv(q, id);
    assert CancelTimer(q, id).value.batch[i].addr == id.addr;
  }

  // What reset makes of timer `a`: it lives on exactly if it was not in the batch, or repeats and was not
  // cancelled; then it is due one interval after the batch.
  ghost predicate Settled(q: Queue, r: Queue, a: nat)
    requires a in q.heap
  {
    var t := q.heap[a];
    if !InBatch(q, a) then a in r.heap && r.heap[a] == t
    else if t.interval > 0 && IdOf(q, a) !in q.canceling then
      a in r.heap && r.heap[a] == t.(expiration := q.batchTime + t.interval) && Pending(r, a)
    else a !in r.heap && Dead(r, t.sequence)
  }

  lemma ResetOneEffect(q: Queue, a: nat)
    requires Core(q) && q.batch != [] && a in q.heap
    ensures ResetOne(q).Ok?
    ensures
      var q1, b := ResetOne(q).value, q.batch[0].addr;
      && q1.canceling == q.canceling && q1.batchTime == q.batchTime
      && (a != b ==> a in q1.heap && q1.heap[a] == q.heap[a])
      && (a == b ==>
        if q.heap[a].interval > 0 && IdOf(q, a) !in q.canceling then
          a in q1.heap && q1.heap[a] == q.heap[a].(expiration := q.batchTime + q.heap[a].interval)
        else a !in q1.heap && Dead(q1, q.heap[a].sequence))
  {
    hide IndexesAgree, BatchApart, Positive, Insert;
    ResetOneCore(q);
    FirstOfBatch(q);
  }

  lemma {:induction false} ResetAllOutcome(q: Queue, a: nat)
    requires Core(q) && a in q.heap
    ensures ResetAll(q).Ok? && Settled(q, ResetAll(q).value, a)
    decreases |q.batch|
  {
    hide Core, ResetOne, InBatch, Pending, Dead;
    ResetAllCore(q);
    if q.batch == [] {
      NoBatch(q, a);
    } else {
      ResetOneCore(q);
      ResetOneEffect(q, a);
      var q1 := ResetOne(q).value;
      BatchTail(q, q1, a);
      if a in q1.heap {
        ResetAllOutcome(q1, a);
        if a == q.batch[0].addr {
          NotInBatchPending(ResetAll(q1).value, a);
        }
      } else {
        ResetAllGone(q1, a, q.heap[a].sequence);
      }
    }
  }

  lemma NoBatch(q: Queue, a: nat)
    requires q.batch == []
    ensures !InBatch(q, a)
  {
  }

  lemma {:induction false} ResetAllGone(q: Queue, a: nat, sequence: int)
    requires ResetAll(q).Ok? && a !in q.heap && Dead(q, sequence)
    ensures a !in ResetAll(q).value.heap && Dead(ResetAll(q).value, sequence)
    decreases |q.batch|
  {
    if q.batch != [] {
      ResetAllGone(ResetOne(q).value, a, sequence);
    }
  }

  lemma BatchTail(q: Queue, q1: Queue, a: nat)
    requires Core(q) && q.batch != [] && q1.batch == q.batch[1..]
    ensures InBatch(q, a) <==> a == q.batch[0].addr || InBatch(q1, a)
    ensures a == q.batch[0].addr ==> !InBatch(q1, a)
  {
    if InBatch(q, a) && a != q.batch[0].addr {
      var i :| 0 <= i < |q.batch| && q.batch[i].addr == a;
      assert q1.batch[i - 1].addr == a;
    }
    if InBatch(q1, a) {
      var i :| 0 <= i < |q1.batch| && q1.batch[i].addr == a;
      assert q.batch[i + 1].addr == a;
    }
  }

  lemma NotInBatchPending(q: Queue, a: nat)
    requires Core(q) && a in q.heap && q.batch == []
    ensures Pending(q, a)
  {
    NoBatch(q, a);
  }

  // While a batch runs, its timers stay as they are, and each turn fires the next of them.
  lemma BatchStep(q: Queue, e: Event)
    requires Inv(q) && q.calling && Admissible(q, e) && !e.End?
    ensures Step(q, e).Ok?
    ensures
      var r := Step(q, e).value;
      && Inv(r) && r.calling && r.batch == q.batch && q.canceling <= r.canceling
      && (forall i :: 0 <= i < |q.batch| ==>
        && q.batch[i].addr in q.heap && q.batch[i].addr in r.heap
        && r.heap[q.batch[i].addr] == q.heap[q.batch[i].addr])
      && (if e.RunNext? then
           && q.next < |q.batch| && r.next == q.next + 1
           && r.fired == q.fired + [q.heap[q.batch[q.next].addr].sequence]
         else r.next == q.next && r.fired == q.fired)
  {
    hide Inv, Insert, Erase;
    StepSafe(q, e);
    forall i | 0 <= i < |q.batch| ensures q.batch[i].addr in q.heap && !Pending(q, q.batch[i].addr) {
      BatchTimer(q, i);
    }
    if e.Cancel? && e.id in q.active {
      ActiveAt(q, e.id);
    }
  }

  lemma BatchTimer(q: Queue, i: nat)
    requires Inv(q) && i < |q.batch|
    ensures q.batch[i].addr in q.heap && !Pending(q, q.batch[i].addr)
  {
  }

  lemma ActiveAt(q: Queue, id: TimerId)
    requires Inv(q) && id in q.active
    ensures Pending(q, id.addr)
  {
  }

  // A timer cancelled in its own batch stays doomed until the batch ends, and then it is gone.
  lemma StepDoomed(q: Queue, e: Event, id: TimerId)
    requires Inv(q) && Admissible(q, e) && Doomed(q, id)
    ensures Step(q, e).Ok?
    ensures if e.End? then Dead(Step(q, e).value, id.sequence) else Doomed(Step(q, e).value, id)
  {
    hide Inv, Dead, EndBatch, CancelTimer, AddTimer;
    if e.End? {
      DoomedEnds(q, e.time, id);
    } else {
      BatchStep(q, e);
      var i :| 0 <= i < |q.batch| && q.batch[i].addr == id.addr;
      assert Step(q, e).value.batch[i].addr == id.addr;
    }
  }

  lemma StillInBatch(q: Queue, r: Queue, a: nat)
    requires InBatch(q, a) && r.batch == q.batch
    ensures InBatch(r, a)
  {
    var i :| 0 <= i < |q.batch| && q.batch[i].addr == a;
    assert r.batch[i].addr == a;
  }

  lemma DoomedEnds(q: Queue, time: int, id: TimerId)
    requires Inv(q) && Doomed(q, id)
    ensures EndBatch(q, time).Ok? && Dead(EndBatch(q, time).value, id.sequence)
  {
    EndInv(q, time);
    var q0 := q.(calling := false, next := 0);
    CoreKept(q, q0);
    StillInBatch(q, q0, id.addr);
    hide Core;
    ResetAllOutcome(q0, id.addr);
  }

  // In any run that reaches the end of the batch, a timer cancelled in that batch fires no more after it.
  lemma {:induction false} DoomedRun(q: Queue, es: seq<Event>, time: int, es': seq<Event>, id: TimerId)
    requires Inv(q) && Doomed(q, id) && AdmissibleRun(q, es) && (forall i :: 0 <= i < |es| ==> !es[i].End?)
    requires Run(q, es).Ok? && Admissible(Run(q, es).value, End(time))
    requires Step(Run(q, es).value, End(time)).Ok? && Run(Step(Run(q, es).value, End(time)).value, es').Ok?
    ensures
      var atEnd := Step(Run(q, es).value, End(time)).value;
      var r := Run(atEnd, es').value;
      Dead(atEnd, id.sequence) && atEnd.fired <= r.fired && id.sequence !in r.fired[|atEnd.fired|..]
    decreases |es|
  {
    hide Inv, Step, Dead, Doomed, Admissible;
    if es == [] {
      StepDoomed(q, End(time), id);
      RunDead(Step(q, End(time)).value, es', id.sequence);
    } else {
      StepDoomed(q, es[0], id);
      StepSafe(q, es[0]);
      DoomedRun(Step(q, es[0]).value, es[1..], time, es', id);
    }
  }

  // A timer cancelled by a callback of its own batch, its own included, is not rescheduled: it is deleted when the
  // batch ends and fires in no later run, whatever else the callbacks do.
  lemma CancelledInBatch(q: Queue, q1: Queue, es: seq<Event>, q2: Queue, time: int, q3: Queue, es': seq<Event>,
                         id: TimerId)
    requires Inv(q) && q.calling && id.addr in q.heap && IdOf(q, id.addr) == id && InBatch(q, id.addr)
    requires Step(q, Cancel(id)) == Ok(q1)
    requires AdmissibleRun(q1, es) && Run(q1, es) == Ok(q2) && forall i :: 0 <= i < |es| ==> !es[i].End?
    requires Admissible(q2, End(time)) && Step(q2, End(time)) == Ok(q3) && AdmissibleRun(q3, es')
    ensures Dead(q3, id.sequence)
    ensures Run(q3, es').Ok? && q3.fired <= Run(q3, es').value.fired
    ensures id.sequence !in Run(q3, es').value.fired[|q3.fired|..]
  {
    hide Inv, Dead, Doomed, Admissible, CancelTimer, EndBatch;
    CancelDooms(q, id);
    CancelInv(q, id);
    RunSafe(q1, es);
    StepSafe(q2, End(time));
    RunSafe(q3, es');
    DoomedRun(q1, es, time, es', id);
  }

  // ---------- Each batch, and the earliest timer ----------

  // A batch is exactly the timers due by `now`, in order of expiration; none of them stays in an index.
  lemma BatchExact(q: Queue, now: int)
    requires Inv(q) && !q.calling && now > 0
    ensures BeginBatch(q, now).Ok?
    ensures
      var r := BeginBatch(q, now).value;
      && (forall e :: e in r.batch <==> e in q.timers && e.when <= now)
      && (forall i, j :: 0 <= i < j < |r.batch| ==> r.batch[i].when <= r.batch[j].when)
      && (forall e :: e in r.timers <==> e in q.timers && e.when > now)
      && forall e :: e in r.batch ==> !Pending(r, e.addr)
  {
    hide BeginBatch, Core, Pending, Less;
    BeginCore(q, now);
    var r := BeginBatch(q, now).value;
    CoreParts(q);
    CoreParts(r);
    assert forall i :: 0 <= i < |r.batch| ==> r.batch[i] == q.timers[i];
    forall i, j | 0 <= i < j < |r.batch| ensures r.batch[i].when <= r.batch[j].when {
      LessWhen(q.timers[i], q.timers[j]);
    }
    forall e | e in r.batch ensures !Pending(r, e.addr) {
      var i :| 0 <= i < |r.batch| && r.batch[i] == e;
    }
  }

  lemma CoreParts(q: Queue)
    requires Core(q)
    ensures Sorted(q.timers) && BatchApart(q)
  {
  }

  lemma LessWhen(e: Entry, f: Entry)
    requires Less(e, f)
    ensures e.when <= f.when
  {
  }

  // The two indexes have the same size, as asserted throughout the source.
  lemma SizesAgree(q: Queue)
    requires IndexesAgree(q)
    ensures |q.timers| == |q.active|
  {
    CountActive(q, q.timers, q.active);
  }

  lemma {:induction false} CountActive(q: Queue, ts: seq<Entry>, ids: set<TimerId>)
    requires forall i, j :: 0 <= i < j < |ts| ==> ts[i] != ts[j]
    requires forall i :: 0 <= i < |ts| ==> ts[i].addr in q.heap && EntryOf(q, ts[i].addr) == ts[i]
    requires forall id :: id in ids <==> id.addr in q.heap && id == IdOf(q, id.addr) && EntryOf(q, id.addr) in ts
    ensures |ts| == |ids|
    decreases |ts|
  {
    if ts == [] {
      assert ids == {};
    } else {
      var id := IdOf(q, ts[0].addr);
      assert id in ids;
      assert ts == [ts[0]] + ts[1..];
      CountActive(q, ts[1..], ids - {id});
    }
  }

  // After every run that is not in the middle of a batch, the earliest pending timer has the timerfd armed
  // for its own time, or for 100 microseconds after the last arming if that is later.
  lemma NoTimerForgotten(es: seq<Event>)
    requires AdmissibleRun(EMPTY, es)
    ensures Run(EMPTY, es).Ok?
    ensures
      var q := Run(EMPTY, es).value;
      !q.calling && q.timers != [] ==>
        && q.timerfd.ArmedFor? && q.timerfd.time <= Max(q.timers[0].when, q.armedAt + MIN_DELAY)
        && forall e :: e in q.timers ==> q.timers[0].when <= e.when
  {
    EveryRunSafe(es);
    var q := Run(EMPTY, es).value;
    hide Run;
    if !q.calling && q.timers != [] {
      forall e | e in q.timers ensures q.timers[0].when <= e.when {
        var i :| 0 <= i < |q.timers| && q.timers[i] == e;
        assert i > 0 ==> Less(q.timers[0], q.timers[i]);
      }
    }
  }
}
