/**
 Double buffering of log lines between logging threads and a writing thread: base/async_logging.acc.

 Each step is what a thread does under the lock, or what the writing thread does to its own variables.  The steps
 of the writing thread follow its loop; lines may be appended between any two of them, since waiting on the
 condition releases the lock.  A failed assert or a null buffer is a `Crash`.
 */
module AsyncLogs {
  import opened Outcomes

  datatype Option<+T> = None | Some(value: T)

  // A line and the number of lines appended before it.
  datatype Line = Line(id: nat, len: nat)

  // What reaches the log file: a line, or the notice that so many buffers were dropped.
  datatype Entry = Logged(line: Line) | Notice(count: nat)

  type Buffer = seq<Line>

  const SIZE := 4000 * 1000
  const MAX_BATCH := 25

  function Length(b: Buffer): nat {
    if b == [] then 0 else Length(b[..|b| - 1]) + b[|b| - 1].len
  }

  // FixedBuffer::append.
  function Store(b: Buffer, line: Line): Buffer {
    if Length(b) + line.len < SIZE then b + [line] else b
  }

  function Wrap(lines: seq<Line>): (es: seq<Entry>)
    ensures |es| == |lines|
  {
    seq(|lines|, i requires 0 <= i < |lines| => Logged(lines[i]))
  }

  function Flatten(bs: seq<Buffer>): seq<Line> {
    if bs == [] then [] else bs[0] + Flatten(bs[1..])
  }

  // Where the writing thread is in its loop.
  datatype Place = Head | Entering | Swapped | Writing(i: nat) | Done

  // `current`, `next` and `buffers` are shared; the spares and `toWrite` belong to the writing thread;
  // `appended` are all lines ever passed to append.
  datatype State = State(
    current: Option<Buffer>, next: Option<Buffer>, buffers: seq<Buffer>,
    spare1: Option<Buffer>, spare2: Option<Buffer>, toWrite: seq<Buffer>,
    place: Place, file: seq<Entry>, appended: seq<Line>)

  const START := State(Some([]), Some([]), [], Some([]), Some([]), [], Head, [], [])

  datatype Event = Append(len: nat) | Check | Swap | Trim | WriteOne | Refill | Exit

  function AppendLine(s: State, len: nat): Outcome<State> {
    var line := Line(|s.appended|, len);
    var t := s.(appended := s.appended + [line]);
    if s.current.None? then Crash
    else if Length(s.current.value) + len < SIZE then Ok(t.(current := Some(Store(s.current.value, line))))
    else
      var next := if s.next.Some? then s.next.value else [];
      Ok(t.(buffers := s.buffers + [s.current.value], current := Some(Store(next, line)), next := None))
  }

  function SwapBuffers(s: State): Outcome<State> {
    if s.current.None? then Crash
    else
      var t := s.(toWrite := s.buffers + [s.current.value], buffers := s.toWrite, current := s.spare1, spare1 := None,
                  place := Swapped);
      Ok(if s.next.None? then t.(next := s.spare2, spare2 := None) else t)
  }

  function TrimBatch(s: State): Outcome<State> {
    if s.toWrite == [] then Crash
    else if |s.toWrite| > MAX_BATCH then
      Ok(s.(file := s.file + [Notice(|s.toWrite| - 2)], toWrite := s.toWrite[..2], place := Writing(0)))
    else Ok(s.(place := Writing(0)))
  }

  // A missing spare is refilled from the back of the written buffers, emptied.
  function RefillOne(spare: Option<Buffer>, bs: seq<Buffer>): Outcome<(Option<Buffer>, seq<Buffer>)> {
    if spare.Some? then Ok((spare, bs))
    else if bs == [] then Crash
    else Ok((Some([]), bs[..|bs| - 1]))
  }

  function RefillSpares(s: State): Outcome<State> {
    var kept := if |s.toWrite| > 2 then s.toWrite[..2] else s.toWrite;
    match RefillOne(s.spare1, kept)
    case Crash => Crash
    case Ok((spare1, rest)) =>
      match RefillOne(s.spare2, rest)
      case Crash => Crash
      case Ok((spare2, _)) => Ok(s.(spare1 := spare1, spare2 := spare2, toWrite := [], place := Head))
  }

  predicate Empty(b: Option<Buffer>) {
    b.Some? && Length(b.value) == 0
  }

  function Step(s: State, e: Event): Outcome<State> {
    match e
    case Append(len) => AppendLine(s, len)
    case Check => if Empty(s.spare1) && Empty(s.spare2) && s.toWrite == [] then Ok(s.(place := Entering)) else Crash
    case Swap => SwapBuffers(s)
    case Trim => TrimBatch(s)
    case WriteOne =>
      if s.place.Writing? && s.place.i < |s.toWrite| then
        Ok(s.(file := s.file + Wrap(s.toWrite[s.place.i]), place := Writing(s.place.i + 1)))
      else Crash
    case Refill => RefillSpares(s)
    case Exit => Ok(s.(place := Done))
  }

  // The steps of the writing thread come in the order of its loop.
  predicate Admissible(s: State, e: Event) {
    match e
    case Append(_) => true
    case Check => s.place == Head
    case Swap => s.place == Entering
    case Trim => s.place == Swapped
    case WriteOne => s.place.Writing? && s.place.i < |s.toWrite|
    case Refill => s.place.Writing? && s.place.i == |s.toWrite|
    case Exit => s.place == Head
  }

  // ---------- No assert fails ----------

  ghost predicate SparesReady(s: State) {
    s.spare1 == Some([]) && s.spare2 == Some([]) && s.toWrite == []
  }

  // One spare was handed over, the other only with a second buffer in the batch.
  ghost predicate BatchReady(s: State) {
    s.spare1.None? && s.toWrite != [] && (s.spare2 == Some([]) || (s.spare2.None? && |s.toWrite| >= 2))
  }

  ghost predicate Inv(s: State) {
    && s.current.Some? && Length(s.current.value) < SIZE
    && (s.next.Some? ==> s.next.value == []) && (s.next.None? ==> s.buffers != [])
    && match s.place
      case Head => SparesReady(s)
      case Entering => SparesReady(s)
      case Done => SparesReady(s)
      case Swapped => BatchReady(s)
      case Writing(i) => BatchReady(s) && i <= |s.toWrite|
  }

  lemma StoreFits(b: Buffer, line: Line)
    requires Length(b) < SIZE
    ensures Length(Store(b, line)) < SIZE
  {
    assert (b + [line])[..|b|] == b;
  }

  lemma StepSafe(s: State, e: Event)
    requires Inv(s) && Admissible(s, e)
    ensures Step(s, e).Ok? && Inv(Step(s, e).value)
  {
    hide Length, Wrap, Store;
    EmptyLength();
    match e {
      case Append(len) =>
        var line := Line(|s.appended|, len);
        StoreFits(s.current.value, line);
        StoreFits([], line);
      case _ =>
    }
  }

  lemma EmptyLength()
    ensures Length([]) == 0
  {
  }

  // ---------- What the log holds ----------

  ghost function Unwritten(s: State): seq<Buffer> {
    if s.place.Writing? && s.place.i <= |s.toWrite| then s.toWrite[s.place.i..] else s.toWrite
  }

  ghost function Contents(b: Option<Buffer>): seq<Line> {
    if b.Some? then b.value else []
  }

  // The lines on their way to the file, oldest first.
  ghost function InFlight(s: State): seq<Line> {
    Flatten(Unwritten(s)) + Flatten(s.buffers) + Contents(s.current)
  }

  ghost function Log(s: State): seq<Entry> {
    s.file + Wrap(InFlight(s))
  }

  lemma {:induction false} FlattenConcat(a: seq<Buffer>, b: seq<Buffer>)
    ensures Flatten(a + b) == Flatten(a) + Flatten(b)
  {
    if a == [] {
      assert a + b == b;
    } else {
      FlattenConcat(a[1..], b);
      assert (a + b)[1..] == a[1..] + b && (a + b)[0] == a[0];
      assert a[0] + (Flatten(a[1..]) + Flatten(b)) == a[0] + Flatten(a[1..]) + Flatten(b);
    }
  }

  lemma FlattenNone()
    ensures Flatten([]) == []
  {
  }

  lemma FlattenOne(b: Buffer)
    ensures Flatten([b]) == b
  {
    assert [b][1..] == [];
  }

  lemma WrapConcat(a: seq<Line>, b: seq<Line>)
    ensures Wrap(a + b) == Wrap(a) + Wrap(b)
  {
  }

  predicate Short(line: Line) {
    line.len < SIZE
  }

  // The batch being trimmed is small enough to be written whole.
  predicate Calm(s: State, e: Event) {
    match e
    case Append(len) => len < SIZE
    case Trim => |s.toWrite| <= 25
    case _ => true
  }

  lemma AppendLog(s: State, len: nat)
    requires Inv(s)
    ensures
      var line := Line(|s.appended|, len);
      var t := Step(s, Append(len)).value;
      && t.file == s.file && t.appended == s.appended + [line]
      && Log(t) == Log(s) + if Short(line) then [Logged(line)] else []
  {
    hide Length, Wrap, Flatten, SparesReady, BatchReady;
    var line := Line(|s.appended|, len);
    var t := Step(s, Append(len)).value;
    EmptyLength();
    var before, stored := s.current.value, if Short(line) then [line] else [];
    if Length(before) + len < SIZE {
      assert InFlight(t) == InFlight(s) + stored;
    } else {
      FlattenConcat(s.buffers, [before]);
      FlattenOne(before);
      assert t.current.value == stored;
      assert InFlight(t) == InFlight(s) + stored;
    }
    WrapConcat(InFlight(s), stored);
    assert Wrap(stored) == if Short(line) then [Logged(line)] else [] by {
      WrapOne(line);
    }
  }

  lemma WrapOne(line: Line)
    ensures Wrap([line]) == [Logged(line)] && Wrap([]) == []
  {
  }

  // The writing thread moves lines toward the file; it neither loses nor reorders them.
  lemma WriterLog(s: State, e: Event)
    requires Inv(s) && Admissible(s, e) && !e.Append? && Calm(s, e)
    ensures Log(Step(s, e).value) == Log(s) && Step(s, e).value.appended == s.appended
  {
    hide Length, Wrap, Flatten;
    StepSafe(s, e);
    var t := Step(s, e).value;
    match e {
      case Swap => SwapLog(s);
      case WriteOne => WriteLog(s);
      case Refill => assert Unwritten(s) == [] == Unwritten(t);
      case Check => assert Unwritten(s) == Unwritten(t);
      case Trim => assert Unwritten(s) == Unwritten(t);
      case Exit => assert Unwritten(s) == Unwritten(t);
    }
  }

  lemma SwapLog(s: State)
    requires Inv(s) && s.place == Entering
    ensures Log(SwapBuffers(s).value) == Log(s)
  {
    hide Length, Wrap, Flatten;
    FlattenConcat(s.buffers, [s.current.value]);
    FlattenOne(s.current.value);
    FlattenNone();
    assert InFlight(SwapBuffers(s).value) == InFlight(s);
  }

  lemma WriteLog(s: State)
    requires Inv(s) && Admissible(s, WriteOne)
    ensures Log(Step(s, WriteOne).value) == Log(s)
  {
    hide Length, Wrap;
    var t := Step(s, WriteOne).value;
    var i := s.place.i;
    assert Unwritten(s)[1..] == Unwritten(t);
    assert InFlight(s) == s.toWrite[i] + InFlight(t);
    WrapConcat(s.toWrite[i], InFlight(t));
  }

  lemma TrimLog(s: State)
    requires Inv(s) && s.place == Swapped && |s.toWrite| > MAX_BATCH
    ensures
      var t := Step(s, Trim).value;
      var rest := Flatten(s.buffers) + s.current.value;
      && t.file == s.file + [Notice(|s.toWrite| - 2)] && t.appended == s.appended
      && Log(t) == t.file + Wrap(Flatten(s.toWrite[..2])) + Wrap(rest)
      && Log(s) == s.file + Wrap(Flatten(s.toWrite[..2])) + Wrap(Flatten(s.toWrite[2..])) + Wrap(rest)
  {
    hide Length, Wrap, Flatten;
    var t := Step(s, Trim).value;
    var rest := Flatten(s.buffers) + s.current.value;
    var kept, lost := s.toWrite[..2], s.toWrite[2..];
    assert Unwritten(t) == kept && Unwritten(s) == s.toWrite == kept + lost;
    FlattenConcat(kept, lost);
    assert InFlight(t) == Flatten(kept) + rest;
    assert InFlight(s) == Flatten(kept) + (Flatten(lost) + rest);
    WrapConcat(Flatten(kept), rest);
    WrapConcat(Flatten(kept), Flatten(lost) + rest);
    WrapConcat(Flatten(lost), rest);
  }

  // ---------- Nothing is lost ----------

  ghost predicate HasNotice(es: seq<Entry>) {
    exists i :: 0 <= i < |es| && es[i].Notice?
  }

  function ShortOnly(lines: seq<Line>): seq<Line> {
    if lines == [] then []
    else ShortOnly(lines[..|lines| - 1]) + if Short(lines[|lines| - 1]) then [lines[|lines| - 1]] else []
  }

  ghost predicate AllShort(lines: seq<Line>) {
    forall i :: 0 <= i < |lines| ==> Short(lines[i])
  }

  // Unless a batch was trimmed, the log is exactly the lines shorter than a buffer.
  ghost predicate Kept(s: State) {
    !HasNotice(s.file) ==> Log(s) == Wrap(ShortOnly(s.appended))
  }

  lemma NoticeKept(a: seq<Entry>, b: seq<Entry>)
    ensures HasNotice(a + b) <==> HasNotice(a) || HasNotice(b)
  {
    if HasNotice(a) {
      var i :| 0 <= i < |a| && a[i].Notice?;
      assert (a + b)[i].Notice?;
    }
    if HasNotice(b) {
      var i :| 0 <= i < |b| && b[i].Notice?;
      assert (a + b)[|a| + i].Notice?;
    }
  }

  // A step loses something exactly when it takes a line as long as a buffer or trims a batch.
  lemma FileNotice(s: State, e: Event)
    requires Inv(s) && Admissible(s, e)
    ensures HasNotice(Step(s, e).value.file) <==> HasNotice(s.file) || (e.Trim? && !Calm(s, e))
  {
    var t := Step(s, e).value;
    match e {
      case Trim =>
        if !Calm(s, e) {
          NoticeKept(s.file, [Notice(|s.toWrite| - 2)]);
          assert [Notice(|s.toWrite| - 2)][0].Notice?;
        }
      case WriteOne => NoticeKept(s.file, Wrap(s.toWrite[s.place.i]));
      case _ =>
    }
  }

  lemma KeptStep(s: State, e: Event)
    requires Inv(s) && Kept(s) && Admissible(s, e)
    ensures Kept(Step(s, e).value)
  {
    hide Length, Wrap, Log, Inv, HasNotice;
    FileNotice(s, e);
    match e {
      case Append(len) =>
        AppendLog(s, len);
        ShortSnoc(s.appended, Line(|s.appended|, len));
      case _ =>
        if Calm(s, e) {
          WriterLog(s, e);
        }
    }
  }

  lemma ShortSnoc(lines: seq<Line>, line: Line)
    ensures Wrap(ShortOnly(lines + [line])) == Wrap(ShortOnly(lines)) + if Short(line) then [Logged(line)] else []
  {
    assert (lines + [line])[..|lines|] == lines;
    WrapConcat(ShortOnly(lines), if Short(line) then [line] else []);
    WrapOne(line);
  }

  lemma {:induction false} ShortOnlyIs(lines: seq<Line>)
    ensures |ShortOnly(lines)| <= |lines|
    ensures ShortOnly(lines) == lines <==> AllShort(lines)
    ensures !AllShort(lines) ==> |ShortOnly(lines)| < |lines|
  {
    if lines != [] {
      ShortOnlyIs(lines[..|lines| - 1]);
      assert lines == lines[..|lines| - 1] + [lines[|lines| - 1]];
    }
  }

  // The lines of a log, without the notices.
  function Lines(es: seq<Entry>): seq<Line> {
    if es == [] then []
    else Lines(es[..|es| - 1]) + if es[|es| - 1].Logged? then [es[|es| - 1].line] else []
  }

  lemma {:induction false} LinesConcat(a: seq<Entry>, b: seq<Entry>)
    ensures Lines(a + b) == Lines(a) + Lines(b)
  {
    if b == [] {
      assert a + b == a;
    } else {
      LinesConcat(a, b[..|b| - 1]);
      assert (a + b)[..|a + b| - 1] == a + b[..|b| - 1];
    }
  }

  lemma {:induction false} LinesWrap(lines: seq<Line>)
    ensures Lines(Wrap(lines)) == lines
  {
    if lines != [] {
      LinesWrap(lines[..|lines| - 1]);
      assert Wrap(lines)[..|lines| - 1] == Wrap(lines[..|lines| - 1]);
    }
  }

  // Nothing was trimmed and no line was as long as a buffer.
  ghost predicate Whole(s: State) {
    !HasNotice(s.file) && AllShort(s.appended)
  }

  lemma WholeHolds(s: State)
    requires Kept(s) && Whole(s)
    ensures Lines(Log(s)) == s.appended
  {
    hide HasNotice, Log, Wrap;
    ShortOnlyIs(s.appended);
    LinesWrap(s.appended);
  }

  // How many of the appended lines are neither in the file nor on their way.
  ghost function Lost(s: State): int {
    |s.appended| - |Lines(Log(s))|
  }

  // While lines are short, append sets aside only buffers that hold something.
  ghost predicate Filled(s: State) {
    AllShort(s.appended) ==>
      && (forall i :: 0 <= i < |s.buffers| ==> s.buffers[i] != [])
      && (s.place == Swapped ==> forall i :: 0 <= i < |s.toWrite| - 1 ==> s.toWrite[i] != [])
  }

  lemma FilledStep(s: State, e: Event)
    requires Inv(s) && Filled(s) && Admissible(s, e)
    ensures Step(s, e).Ok? && Filled(Step(s, e).value)
  {
    hide Length, Wrap, Store;
    StepSafe(s, e);
    EmptyLength();
    var t := Step(s, e).value;
    if e.Append? {
      assert forall i :: 0 <= i < |s.appended| ==> t.appended[i] == s.appended[i];
      assert t.appended[|s.appended|].len == e.len;
    }
  }

  lemma AppendLost(s: State, len: nat)
    requires Inv(s)
    ensures Step(s, Append(len)).Ok? && Lost(Step(s, Append(len)).value) == Lost(s) + if len < SIZE then 0 else 1
  {
    hide Inv, Log, Step, Lines;
    StepSafe(s, Append(len));
    AppendLog(s, len);
    var line := Line(|s.appended|, len);
    LinesConcat(Log(s), if Short(line) then [Logged(line)] else []);
    LinesOne(line);
  }

  lemma LinesOne(line: Line)
    ensures Lines([Logged(line)]) == [line] && Lines([]) == []
  {
    assert [Logged(line)][..0] == [];
  }

  // Trimming loses exactly the lines of the buffers it drops.
  lemma TrimLost(s: State)
    requires Inv(s) && s.place == Swapped && |s.toWrite| > MAX_BATCH
    ensures Step(s, Trim).Ok? && Lost(Step(s, Trim).value) == Lost(s) + |Flatten(s.toWrite[2..])|
  {
    hide Inv, Log, Lines, Wrap, Flatten;
    HasCurrent(s);
    TrimLog(s);
    var kept, dropped := Flatten(s.toWrite[..2]), Flatten(s.toWrite[2..]);
    var rest := Flatten(s.buffers) + s.current.value;
    var notice := [Notice(|s.toWrite| - 2)];
    LinesConcat(s.file, notice);
    LinesNotice(|s.toWrite| - 2);
    LinesConcat(s.file + notice, Wrap(kept));
    LinesConcat(s.file + notice + Wrap(kept), Wrap(rest));
    LinesConcat(s.file, Wrap(kept));
    LinesConcat(s.file + Wrap(kept), Wrap(dropped));
    LinesConcat(s.file + Wrap(kept) + Wrap(dropped), Wrap(rest));
    LinesWrap(kept);
    LinesWrap(dropped);
    LinesWrap(rest);
  }

  lemma LinesNotice(count: nat)
    ensures Lines([Notice(count)]) == []
  {
    assert [Notice(count)][..0] == [];
  }

  lemma FlattenFilled(bs: seq<Buffer>)
    requires bs != [] && bs[0] != []
    ensures |Flatten(bs)| > 0
  {
  }

  // Lines once lost stay lost, and a step that is not calm loses one more.
  lemma LostStep(s: State, e: Event)
    requires Inv(s) && Filled(s) && Admissible(s, e)
    ensures Step(s, e).Ok? && Lost(Step(s, e).value) >= Lost(s)
    ensures !Calm(s, e) && AllShort(s.appended) ==> Lost(Step(s, e).value) > Lost(s)
  {
    hide Inv, Lost, Flatten, Length, Wrap;
    StepSafe(s, e);
    if e.Append? {
      AppendLost(s, e.len);
    } else if Calm(s, e) {
      WriterLost(s, e);
    } else {
      TrimLost(s);
      if AllShort(s.appended) {
        FlattenFilled(s.toWrite[2..]);
      }
    }
  }

  lemma WriterLost(s: State, e: Event)
    requires Inv(s) && Admissible(s, e) && !e.Append? && Calm(s, e)
    ensures Step(s, e).Ok? && Lost(Step(s, e).value) == Lost(s)
  {
    hide Inv, Step, Log;
    StepSafe(s, e);
    WriterLog(s, e);
  }

  // Something is missing as soon as a batch was trimmed or a line was too long.
  ghost predicate LossCounted(s: State) {
    Lost(s) >= 0 && (!Whole(s) ==> Lost(s) >= 1)
  }

  lemma LossStep(s: State, e: Event)
    requires Inv(s) && Filled(s) && LossCounted(s) && Admissible(s, e)
    ensures Step(s, e).Ok? && LossCounted(Step(s, e).value)
  {
    hide Inv, Filled, Lost, HasNotice, Step, Calm;
    LostStep(s, e);
    WholeStep(s, e);
  }

  // ---------- Nothing is repeated or reordered ----------

  // The logged lines are lines that were appended, each at most once and in their order.
  ghost predicate InOrder(es: seq<Entry>, appended: seq<Line>) {
    && (forall i :: 0 <= i < |es| && es[i].Logged? ==>
      es[i].line.id < |appended| && appended[es[i].line.id] == es[i].line)
    && (forall i, j :: 0 <= i < j < |es| && es[i].Logged? && es[j].Logged? ==> es[i].line.id < es[j].line.id)
  }

  lemma OrderAppend(es: seq<Entry>, appended: seq<Line>, line: Line)
    requires InOrder(es, appended) && line.id == |appended|
    ensures InOrder(es, appended + [line]) && InOrder(es + [Logged(line)], appended + [line])
  {
  }

  // Leaving out lines and inserting a notice keeps the order.
  lemma OrderDrop(a: seq<Entry>, b: seq<Entry>, c: seq<Entry>, d: seq<Entry>, n: Entry, appended: seq<Line>)
    requires InOrder(a + b + c + d, appended) && n.Notice?
    ensures InOrder(a + [n] + b + d, appended)
  {
    var old', new' := a + b + c + d, a + [n] + b + d;
    forall i | 0 <= i < |new'| && i != |a| ensures new'[i] == old'[From(i, |a|, |b|, |c|)] {
    }
    forall i | 0 <= i < |new'| && new'[i].Logged?
      ensures new'[i].line.id < |appended| && appended[new'[i].line.id] == new'[i].line
    {
      assert new'[i] == old'[From(i, |a|, |b|, |c|)];
    }
    forall i, j | 0 <= i < j < |new'| && new'[i].Logged? && new'[j].Logged? ensures new'[i].line.id < new'[j].line.id {
      assert new'[i] == old'[From(i, |a|, |b|, |c|)] && new'[j] == old'[From(j, |a|, |b|, |c|)];
    }
  }

  // Where an entry of the shortened log stood before.
  function From(i: nat, a: nat, b: nat, c: nat): nat {
    if i < a then i else if i < a + 1 + b then (if i == a then 0 else i - 1) else i - 1 + c
  }

  lemma OrderStep(s: State, e: Event)
    requires Inv(s) && Admissible(s, e) && InOrder(Log(s), s.appended)
    ensures InOrder(Log(Step(s, e).value), Step(s, e).value.appended)
  {
    hide Length, Wrap, Log, Inv, InOrder;
    if e.Append? {
      AppendLog(s, e.len);
      OrderAppend(Log(s), s.appended, Line(|s.appended|, e.len));
      assert Log(s) + [] == Log(s);
    } else if Calm(s, e) {
      WriterLog(s, e);
    } else {
      TrimOrder(s);
    }
  }

  lemma TrimOrder(s: State)
    requires Inv(s) && Admissible(s, Trim) && !Calm(s, Trim) && InOrder(Log(s), s.appended)
    ensures InOrder(Log(Step(s, Trim).value), s.appended) && Step(s, Trim).value.appended == s.appended
  {
    hide Length, Wrap, Log, InOrder;
    TrimLog(s);
    OrderDrop(s.file, Wrap(Flatten(s.toWrite[..2])), Wrap(Flatten(s.toWrite[2..])),
              Wrap(Flatten(s.buffers) + s.current.value), Notice(|s.toWrite| - 2), s.appended);
  }

  // ---------- Runs ----------

  function Run(s: State, es: seq<Event>): Outcome<State>
    decreases |es|
  {
    if es == [] then Ok(s) else
    match Step(s, es[0])
    case Crash => Crash
    case Ok(t) => Run(t, es[1..])
  }

  ghost predicate AdmissibleRun(s: State, es: seq<Event>)
    decreases |es|
  {
    es == [] || (Admissible(s, es[0]) && (Step(s, es[0]).Ok? ==> AdmissibleRun(Step(s, es[0]).value, es[1..])))
  }

  // Every line of the run is shorter than a buffer, and no batch has more than 25 buffers.
  ghost predicate CalmRun(s: State, es: seq<Event>)
    decreases |es|
  {
    es == [] || (Calm(s, es[0]) && (Step(s, es[0]).Ok? ==> CalmRun(Step(s, es[0]).value, es[1..])))
  }

  lemma WholeStep(s: State, e: Event)
    requires Inv(s) && Admissible(s, e)
    ensures Whole(Step(s, e).value) <==> Whole(s) && Calm(s, e)
  {
    hide Length, Wrap, HasNotice;
    FileNotice(s, e);
    if e.Append? {
      var t := Step(s, e).value;
      assert t.appended == s.appended + [Line(|s.appended|, e.len)];
      assert t.appended[|s.appended|].len == e.len;
      assert forall i :: 0 <= i < |s.appended| ==> t.appended[i] == s.appended[i];
      if AllShort(t.appended) {
        forall i | 0 <= i < |s.appended| ensures Short(s.appended[i]) {
          assert Short(t.appended[i]);
        }
        assert Short(t.appended[|s.appended|]);
      }
    } else {
      StepSafe(s, e);
      assert Step(s, e).value.appended == s.appended;
    }
  }

  // What every run keeps.
  ghost predicate RunKeeps(s: State) {
    Inv(s) && Kept(s) && InOrder(Log(s), s.appended) && Filled(s) && LossCounted(s)
  }

  lemma {:induction false} RunSafe(s: State, es: seq<Event>)
    requires RunKeeps(s) && AdmissibleRun(s, es)
    ensures Run(s, es).Ok? && RunKeeps(Run(s, es).value)
    ensures Whole(Run(s, es).value) <==> Whole(s) && CalmRun(s, es)
    decreases |es|
  {
    hide Inv, Kept, InOrder, Whole, Step, Admissible, Calm, Log, Filled, LossCounted;
    if es != [] {
      StepSafe(s, es[0]);
      KeptStep(s, es[0]);
      OrderStep(s, es[0]);
      FilledStep(s, es[0]);
      LossStep(s, es[0]);
      WholeStep(s, es[0]);
      RunSafe(Step(s, es[0]).value, es[1..]);
    }
  }

  // Under every interleaving no assert fails and lines are logged in order and at most once; and all the lines
  // appended are in the file or on their way exactly when lines and batches were small enough.
  lemma EveryRun(es: seq<Event>)
    requires AdmissibleRun(START, es)
    ensures Run(START, es).Ok?
    ensures
      var t := Run(START, es).value;
      && InOrder(Log(t), t.appended)
      && (Lines(Log(t)) == t.appended <==> CalmRun(START, es))
      && (t.next.None? ==> t.buffers != [])
  {
    hide InOrder, Run, AdmissibleRun, CalmRun, Whole, Log, Lines;
    StartIs();
    RunSafe(START, es);
    var t := Run(START, es).value;
    if Whole(t) {
      WholeHolds(t);
    }
  }

  lemma StartIs()
    ensures RunKeeps(START) && Whole(START)
  {
    assert InFlight(START) == [];
    assert Log(START) == [];
  }

  // ---------- What one round writes ----------

  // The file as it is once the present batch has been written.
  ghost function Written(s: State): seq<Entry> {
    s.file + Wrap(Flatten(Unwritten(s)))
  }

  lemma SwapWritten(s: State)
    requires Inv(s) && s.place == Entering
    ensures Written(SwapBuffers(s).value) == Log(s)
  {
    hide Length, Wrap, Flatten;
    FlattenConcat(s.buffers, [s.current.value]);
    FlattenOne(s.current.value);
    FlattenNone();
    assert Flatten(Unwritten(SwapBuffers(s).value)) == InFlight(s);
  }

  // The steps of a round after the swap.
  predicate InRound(es: seq<Event>) {
    forall i :: 0 <= i < |es| ==> es[i].Append? || es[i].Trim? || es[i].WriteOne?
  }

  // The batch was not or will not be trimmed.
  predicate Untrimmed(s: State) {
    s.place.Writing? || (s.place == Swapped && |s.toWrite| <= 25)
  }

  lemma WrittenStep(s: State, e: Event)
    requires Inv(s) && Admissible(s, e) && InRound([e]) && Untrimmed(s)
    ensures Written(Step(s, e).value) == Written(s) && Untrimmed(Step(s, e).value)
  {
    hide Length, Wrap, Store;
    StepSafe(s, e);
    assert [e][0] == e;
    var t := Step(s, e).value;
    if e.WriteOne? {
      var i := s.place.i;
      assert Unwritten(s)[1..] == Unwritten(t);
      WrapConcat(s.toWrite[i], Flatten(Unwritten(t)));
    } else {
      assert Unwritten(s) == Unwritten(t);
    }
  }

  // The batch is trimmed, and entry n of the file says so.
  predicate Trimmed(s: State, n: nat) {
    || (s.place == Swapped && |s.toWrite| > 25 && n == |s.file|)
    || (s.place.Writing? && n < |s.file| && s.file[n].Notice?)
  }

  lemma TrimmedStep(s: State, e: Event, n: nat)
    requires Inv(s) && Admissible(s, e) && InRound([e]) && Trimmed(s, n)
    ensures Trimmed(Step(s, e).value, n)
  {
    hide Length, Store, Wrap;
    StepSafe(s, e);
    assert [e][0] == e;
  }

  // In every run of a round the file, once the batch is written, is what it was going to be or has a notice.
  lemma {:induction false} RoundWrites(s: State, es: seq<Event>, n: nat)
    requires Inv(s) && AdmissibleRun(s, es) && InRound(es)
    ensures Run(s, es).Ok?
    ensures
      var t := Run(s, es).value;
      (Untrimmed(s) ==> Written(t) == Written(s)) && (Trimmed(s, n) ==> Trimmed(t, n))
    decreases |es|
  {
    hide Inv, Step, Admissible, Written, Untrimmed, Trimmed;
    if es != [] {
      StepSafe(s, es[0]);
      if Untrimmed(s) {
        WrittenStep(s, es[0]);
      }
      if Trimmed(s, n) {
        TrimmedStep(s, es[0], n);
      }
      RoundWrites(Step(s, es[0]).value, es[1..], n);
    }
  }

  lemma WrittenAll(s: State)
    requires s.place == Writing(|s.toWrite|)
    ensures s.file == Written(s)
  {
    assert Unwritten(s) == [];
  }

  // When a round has written its batch, whatever was appended meanwhile, the file is exactly the log of the moment of
  // the swap, if and only if at most 25 buffers were swapped.
  lemma RoundFlushes(s: State, es: seq<Event>)
    requires Inv(s) && s.place == Entering && Step(s, Swap).Ok?
    requires AdmissibleRun(Step(s, Swap).value, es) && InRound(es)
    ensures Run(Step(s, Swap).value, es).Ok?
    ensures
      var t := Run(Step(s, Swap).value, es).value;
      t.place == Writing(|t.toWrite|) ==> (t.file == Log(s) <==> |s.buffers| < 25)
  {
    hide Inv, Log, Written, Run, AdmissibleRun;
    StepSafe(s, Swap);
    SwapWritten(s);
    var r := Step(s, Swap).value;
    RoundWrites(r, es, |s.file|);
    var t := Run(r, es).value;
    if t.place == Writing(|t.toWrite|) {
      WrittenAll(t);
      LogLines(s);
    }
  }

  // What is on its way to the file are lines.
  lemma LogLines(s: State)
    ensures forall i :: |s.file| <= i < |Log(s)| ==> Log(s)[i].Logged?
  {
  }

  lemma {:induction false} DoneRun(s: State, es: seq<Event>)
    requires Inv(s) && s.place == Done && AdmissibleRun(s, es)
    ensures Run(s, es).Ok? && Run(s, es).value.file == s.file
    decreases |es|
  {
    hide Inv, Length, Store;
    if es != [] {
      StepSafe(s, es[0]);
      DoneRun(Step(s, es[0]).value, es[1..]);
    }
  }

  // Once the writing thread has left its loop the file stays as it is: what was on its way then is never written.
  lemma ExitIsFinal(s: State, es: seq<Event>)
    requires Inv(s) && s.place == Head && Step(s, Exit).Ok? && AdmissibleRun(Step(s, Exit).value, es)
    ensures Run(Step(s, Exit).value, es).Ok? && Run(Step(s, Exit).value, es).value.file == s.file
  {
    hide Inv, Run, AdmissibleRun;
    StepSafe(s, Exit);
    DoneRun(Step(s, Exit).value, es);
  }

  // ---------- Buffers are handed on ----------

  function One(b: Option<Buffer>): nat {
    if b.Some? then 1 else 0
  }

  // The number of buffers there are.
  function Held(s: State): nat {
    One(s.current) + One(s.next) + |s.buffers| + One(s.spare1) + One(s.spare2) + |s.toWrite|
  }

  // A line needs a buffer of its own when the current one has no room for it.
  predicate Overflows(s: State, e: Event) {
    e.Append? && s.current.Some? && Length(s.current.value) + e.len >= SIZE
  }

  // Buffers are handed from hand to hand: one is allocated exactly when the current one is full and there is no next
  // one, and dropped only by trimming and at the end of a round, which leaves the writing thread two.
  lemma HeldStep(s: State, e: Event)
    requires Inv(s) && Admissible(s, e)
    ensures Step(s, e).Ok?
    ensures
      var t := Step(s, e).value;
      Held(t) == match e
        case Append(_) => Held(s) + if Overflows(s, e) && s.next.None? then 1 else 0
        case Trim => if Calm(s, e) then Held(s) else Held(s) - |s.toWrite| + 2
        case Refill => One(s.current) + One(s.next) + |s.buffers| + 2
        case _ => Held(s)
  {
    hide Length, Wrap, Store;
    StepSafe(s, e);
  }

  // ---------- Lines are lost ----------

  // A line as long as a buffer never reaches the log.
  lemma LongLineLost()
    ensures AdmissibleRun(START, [Append(SIZE)]) && Run(START, [Append(SIZE)]).Ok?
    ensures
      var t := Run(START, [Append(SIZE)]).value;
      Lines(Log(t)) != t.appended
  {
    hide Log, Lines, Length, Store, InOrder;
    assert [Append(SIZE)][1..] == [];
    assert !CalmRun(START, [Append(SIZE)]);
    StartIs();
    EveryRun([Append(SIZE)]);
  }

  lemma {:induction false} RunSnoc(s: State, es: seq<Event>, e: Event)
    requires AdmissibleRun(s, es) && Run(s, es).Ok? && Admissible(Run(s, es).value, e)
    ensures AdmissibleRun(s, es + [e]) && Run(s, es + [e]) == Step(Run(s, es).value, e)
    ensures CalmRun(s, es + [e]) <==> CalmRun(s, es) && Calm(Run(s, es).value, e)
    decreases |es|
  {
    hide Step, Admissible, Calm;
    if es == [] {
      assert (es + [e])[1..] == [];
    } else {
      assert (es + [e])[1..] == es[1..] + [e];
      RunSnoc(Step(s, es[0]).value, es[1..], e);
    }
  }

  // Lines of which a buffer holds one: each fills a buffer of its own.
  lemma {:induction false} BigLines(k: nat) returns (es: seq<Event>)
    requires k > 0
    ensures AdmissibleRun(START, es) && Run(START, es).Ok?
    ensures
      var t := Run(START, es).value;
      && t.place == Head && t.toWrite == [] && SparesReady(t) && |t.buffers| == k - 1
      && t.current.Some? && Length(t.current.value) == SIZE - 1 && (t.next.Some? ==> t.next.value == [])
  {
    hide Store, InOrder, AdmissibleRun, Run;
    EmptyLength();
    NoEvents();
    if k == 1 {
      OneLine(Line(0, SIZE - 1));
      RunSnoc(START, [], Append(SIZE - 1));
      es := [] + [Append(SIZE - 1)];
    } else {
      es := BigLines(k - 1);
      var t := Run(START, es).value;
      OneLine(Line(|t.appended|, SIZE - 1));
      RunSnoc(START, es, Append(SIZE - 1));
      es := es + [Append(SIZE - 1)];
    }
  }

  lemma NoEvents()
    ensures AdmissibleRun(START, []) && Run(START, []) == Ok(START)
  {
  }

  lemma OneLine(line: Line)
    requires line.len == SIZE - 1
    ensures Length(Store([], line)) == SIZE - 1
  {
    EmptyLength();
    assert ([] + [line])[..0] == [];
    assert Length([line]) == line.len;
  }

  // Twenty-six buffers set aside before the writing thread comes round: the batch is trimmed and lines are lost.
  lemma TrimmedBatchLoses() returns (es: seq<Event>)
    ensures AdmissibleRun(START, es) && Run(START, es).Ok?
    ensures
      var t := Run(START, es).value;
      Lines(Log(t)) != t.appended && HasNotice(t.file)
  {
    hide Length, Store, InOrder, AdmissibleRun, Run, CalmRun, Log, Lines, HasNotice;
    EmptyLength();
    es := BigLines(MAX_BATCH + 1);
    RunSnoc(START, es, Check);
    es := es + [Check];
    RunSnoc(START, es, Swap);
    es := es + [Swap];
    RunSnoc(START, es, Trim);
    var s := Run(START, es).value;
    es := es + [Trim];
    assert !Calm(s, Trim);
    var t := Run(START, es).value;
    assert HasNotice(t.file) by {
      NoticeKept(s.file, [Notice(|s.toWrite| - 2)]);
      OneNotice(|s.toWrite| - 2);
    }
    EveryRun(es);
  }

  lemma OneNotice(count: nat)
    ensures HasNotice([Notice(count)])
  {
    assert [Notice(count)][0].Notice?;
  }

  // ---------- The logger ----------

  // Every buffer of the batch is in the file.
  function BatchWritten(s: State): State {
    s.(file := s.file + Wrap(Flatten(s.toWrite)), place := Writing(|s.toWrite|))
  }

  // It is what the writing steps lead to, one for each buffer still to be written.
  lemma {:induction false} WritesLead(s: State)
    requires s.place.Writing? && s.place.i <= |s.toWrite|
    ensures Run(s, seq(|s.toWrite| - s.place.i, _ => WriteOne)) ==
            Ok(s.(file := s.file + Wrap(Flatten(s.toWrite[s.place.i..])), place := Writing(|s.toWrite|)))
    decreases |s.toWrite| - s.place.i
  {
    hide Wrap;
    var i := s.place.i;
    var es := seq(|s.toWrite| - i, _ => WriteOne);
    if i < |s.toWrite| {
      var t := Step(s, WriteOne).value;
      WritesLead(t);
      assert es[1..] == seq(|s.toWrite| - (i + 1), _ => WriteOne);
      assert s.toWrite[i..][1..] == s.toWrite[i + 1..];
      WrapConcat(s.toWrite[i], Flatten(s.toWrite[i + 1..]));
      assert s.file + Wrap(s.toWrite[i]) + Wrap(Flatten(s.toWrite[i + 1..])) ==
             s.file + Wrap(Flatten(s.toWrite[i..]));
    } else {
      NothingWritten();
      assert s.toWrite[i..] == [] && es == [];
      assert s.file + Wrap(Flatten(s.toWrite[i..])) == s.file;
    }
  }

  // The logger and the variables of its writing thread; each method is the code of one or more steps.
  class AsyncLogging {
    var current: Option<Buffer>
    var next: Option<Buffer>
    var buffers: seq<Buffer>
    var spare1: Option<Buffer>
    var spare2: Option<Buffer>
    var toWrite: seq<Buffer>
    var file: seq<Entry>
    ghost var place: Place
    ghost var appended: seq<Line>

    ghost function Abs(): State
      reads this
    {
      State(current, next, buffers, spare1, spare2, toWrite, place, file, appended)
    }

    constructor ()
      ensures Abs() == START && Inv(Abs())
    {
      current, next, buffers := Some([]), Some([]), [];
      spare1, spare2, toWrite := Some([]), Some([]), [];
      file, place, appended := [], Head, [];
    }

    // append.
    method AppendLine(line: Line)
      requires Inv(Abs()) && line.id == |appended|
      modifies this
      ensures Abs() == Step(old(Abs()), Append(line.len)).value && Inv(Abs())
    {
      hide Length, Inv, SparesReady, BatchReady;
      ghost var was := Abs();
      StepSafe(was, Append(line.len));
      HasCurrent(was);
      appended := appended + [line];
      if Length(current.value) + line.len < SIZE {
        current := Some(Store(current.value, line));
      } else {
        buffers := buffers + [current.value];
        current := None;
        if next.Some? {
          current := next;
          next := None;
        } else {
          current := Some([]);
        }
        current := Some(Store(current.value, line));
      }
    }

    // The part of the loop under the lock.
    method SwapLocked()
      requires Inv(Abs()) && place == Entering
      modifies this
      ensures Abs() == Step(old(Abs()), Swap).value && Inv(Abs())
    {
      hide Inv, SparesReady, BatchReady;
      ghost var was := Abs();
      StepSafe(was, Swap);
      HasCurrent(was);
      buffers := buffers + [current.value];
      current := None;
      current := spare1;
      spare1 := None;
      toWrite, buffers := buffers, toWrite;
      if next.None? {
        next := spare2;
        spare2 := None;
      }
      place := Swapped;
    }

    // Dropping the excess of a long batch, then writing the rest.
    method WriteBatch()
      requires Inv(Abs()) && place == Swapped
      modifies this
      ensures Abs() == BatchWritten(Step(old(Abs()), Trim).value) && Inv(Abs())
    {
      hide Length, Wrap, Flatten;
      StepSafe(Abs(), Trim);
      if |toWrite| > MAX_BATCH {
        file := file + [Notice(|toWrite| - 2)];
        toWrite := toWrite[..2];
      }
      place := Writing(0);
      ghost var trimmed := Abs();
      var i := 0;
      assert toWrite[..0] == [] && Wrap(Flatten([])) == [] by {
        NothingWritten();
      }
      while i < |toWrite|
        invariant i <= |toWrite|
        invariant Abs() == trimmed.(file := trimmed.file + Wrap(Flatten(toWrite[..i])), place := Writing(i))
      {
        OneMore(toWrite, i);
        file := file + Wrap(toWrite[i]);
        i := i + 1;
        place := Writing(i);
      }
      assert toWrite[..i] == toWrite;
    }

    // Handing two written buffers back as spares.
    method RefillBoth()
      requires Inv(Abs()) && place == Writing(|toWrite|)
      modifies this
      ensures Abs() == Step(old(Abs()), Refill).value && Inv(Abs())
    {
      StepSafe(Abs(), Refill);
      if |toWrite| > 2 {
        toWrite := toWrite[..2];
      }
      if spare1.None? {
        spare1 := Some([]);
        toWrite := toWrite[..|toWrite| - 1];
      }
      if spare2.None? {
        assert toWrite != [];
        spare2 := Some([]);
        toWrite := toWrite[..|toWrite| - 1];
      }
      toWrite := [];
      place := Head;
    }
  }

  lemma HasCurrent(s: State)
    requires Inv(s)
    ensures s.current.Some?
  {
  }

  lemma NothingWritten()
    ensures Wrap(Flatten([])) == []
  {
  }

  lemma OneMore(bs: seq<Buffer>, i: nat)
    requires i < |bs|
    ensures Wrap(Flatten(bs[..i + 1])) == Wrap(Flatten(bs[..i])) + Wrap(bs[i])
  {
    assert bs[..i + 1] == bs[..i] + [bs[i]];
    FlattenConcat(bs[..i], [bs[i]]);
    FlattenOne(bs[i]);
    WrapConcat(Flatten(bs[..i]), bs[i]);
  }
}
