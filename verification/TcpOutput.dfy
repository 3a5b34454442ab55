/**
 The output path of net/tcp_connection.cc on the connection's loop thread.

 The kernel accepts any prefix of a write or refuses it.  `wire` is what the kernel has taken, `accepted`
 the messages the connection took responsibility for; `notes` are the callbacks it queued.
 */
module TcpOutput {
  import opened Buffers
  import opened ConnectionStates

  // What ::write did: took n bytes, or failed with EAGAIN, with EPIPE or ECONNRESET, or otherwise.
  datatype WriteResult = Wrote(n: nat) | WouldBlock | PeerGone | OtherError

  datatype Note = WriteComplete | HighWater(len: nat)

  datatype Conn = Conn(
    state: State, writing: bool, reading: bool, out: seq<byte>,
    accepted: seq<byte>, wire: seq<byte>, shutdowns: nat, notes: seq<Note>,
    mark: nat, wantsComplete: bool, wantsHighWater: bool)

  datatype Event =
    | Establish
    | Send(message: seq<byte>, result: WriteResult)
    | Writable(result: WriteResult)
    | Shutdown
    | ForceClose
    | ForceCloseInLoop
    | Close
    | Destroy
    | StartRead
    | StopRead

  function Notify(c: Conn, wanted: bool, note: Note): Conn {
    if wanted then c.(notes := c.notes + [note]) else c
  }

  // The second half of sendInLoop: what could not be written directly is buffered.
  function BufferRest(c: Conn, rest: seq<byte>): Conn {
    if rest == [] then c else
    var oldLen := |c.out|;
    var c1 :=
      Notify(c, oldLen + |rest| >= c.mark && oldLen < c.mark && c.wantsHighWater, HighWater(oldLen + |rest|));
    c1.(out := c.out + rest, writing := true)
  }

  // sendInLoop.
  function SendInLoop(c: Conn, message: seq<byte>, result: WriteResult): Conn {
    if c.state == Disconnected then c
    else if !c.writing && c.out == [] then
      match result
      case Wrote(n) =>
        if n > |message| then c else
        var c1 := c.(wire := c.wire + message[..n], accepted := c.accepted + message);
        BufferRest(Notify(c1, n == |message| && c.wantsComplete, WriteComplete), message[n..])
      case PeerGone => c
      case _ => BufferRest(c.(accepted := c.accepted + message), message)
    else BufferRest(c.(accepted := c.accepted + message), message)
  }

  // send, called on the loop thread.
  function SendOn(c: Conn, message: seq<byte>, result: WriteResult): Conn {
    if c.state == Connected then SendInLoop(c, message, result) else c
  }

  // shutdownInLoop.
  function ShutdownInLoop(c: Conn): Conn {
    if !c.writing then c.(shutdowns := c.shutdowns + 1) else c
  }

  // shutdown, called on the loop thread.
  function ShutdownOn(c: Conn): Conn {
    if c.state == Connected then ShutdownInLoop(c.(state := Disconnecting)) else c
  }

  // handleWrite.
  function HandleWrite(c: Conn, result: WriteResult): Conn {
    if c.writing && result.Wrote? && 0 < result.n <= |c.out| then
      var c1 := c.(wire := c.wire + c.out[..result.n], out := c.out[result.n..]);
      if c1.out == [] then
        var c2 := Notify(c1.(writing := false), c.wantsComplete, WriteComplete);
        if c2.state == Disconnecting then ShutdownInLoop(c2) else c2
      else c1
    else c
  }

  function ForceCloseOn(c: Conn): Conn {
    if c.state == Connected || c.state == Disconnecting then c.(state := Disconnecting) else c
  }

  // handleClose up to the callbacks: disableAll and no more state.
  function HandleClose(c: Conn): Conn {
    c.(state := Disconnected, writing := false, reading := false)
  }

  function Step(c: Conn, e: Event): Conn {
    match e
    case Establish => c.(state := Connected, reading := true)
    case Send(message, result) => SendOn(c, message, result)
    case Writable(result) => HandleWrite(c, result)
    case Shutdown => ShutdownOn(c)
    case ForceClose => ForceCloseOn(c)
    case ForceCloseInLoop => if c.state == Connected || c.state == Disconnecting then HandleClose(c) else c
    case Close => HandleClose(c)
    case Destroy => if c.state == Connected then HandleClose(c) else c
    case StartRead => c.(reading := true)
    case StopRead => c.(reading := false)
  }

  // The asserts of the source, and a kernel that takes no more than it was given.
  predicate Admissible(c: Conn, e: Event) {
    match e
    case Establish => c.state == Connecting
    case Send(message, result) => result.Wrote? ==> result.n <= |message|
    case Writable(result) => result.Wrote? ==> result.n <= |c.out|
    case Close => c.state == Connected || c.state == Disconnecting
    case _ => true
  }

  function Fresh(mark: nat, wantsComplete: bool, wantsHighWater: bool): Conn {
    Conn(Connecting, false, false, [], [], [], 0, [], mark, wantsComplete, wantsHighWater)
  }

  // ---------- The invariant ----------

  ghost predicate Inv(c: Conn) {
    && c.wire + c.out == c.accepted
    && (c.state != Disconnected ==> (c.writing <==> c.out != []))
    && (c.state == Disconnected ==> !c.writing)
    && (c.state == Connecting ==> c.accepted == [])
    && c.shutdowns <= 1
    && (c.shutdowns == 1 ==> c.out == [] && (c.state == Disconnecting || c.state == Disconnected))
  }

  lemma BufferRestInv(c: Conn, rest: seq<byte>)
    requires c.wire + c.out + rest == c.accepted && c.state != Disconnected && c.state != Connecting && c.shutdowns == 0
    requires c.writing <==> c.out != []
    ensures Inv(BufferRest(c, rest))
    ensures BufferRest(c, rest).state == c.state && BufferRest(c, rest).wire == c.wire
    ensures BufferRest(c, rest).accepted == c.accepted
  {
    assert c.wire + c.out + rest == c.wire + (c.out + rest);
    if rest == [] {
      assert c.out + rest == c.out;
    }
  }

  lemma WroteInv(c: Conn, message: seq<byte>, n: nat)
    requires Inv(c) && c.state == Connected && c.out == [] && n <= |message|
    ensures Inv(SendInLoop(c, message, Wrote(n)))
  {
    hide BufferRest;
    var c1 := c.(wire := c.wire + message[..n], accepted := c.accepted + message);
    assert c.wire == c.accepted && message[..n] + message[n..] == message;
    assert c1.wire + c1.out + message[n..] == c1.accepted;
    BufferRestInv(Notify(c1, n == |message| && c.wantsComplete, WriteComplete), message[n..]);
  }

  lemma SendInv(c: Conn, message: seq<byte>, result: WriteResult)
    requires Inv(c) && (result.Wrote? ==> result.n <= |message|)
    ensures Inv(SendOn(c, message, result))
  {
    if c.state == Connected {
      if !c.writing && c.out == [] {
        match result
        case Wrote(n) => WroteInv(c, message, n);
        case PeerGone =>
        case WouldBlock => BufferRestInv(c.(accepted := c.accepted + message), message);
        case OtherError => BufferRestInv(c.(accepted := c.accepted + message), message);
      } else {
        BufferRestInv(c.(accepted := c.accepted + message), message);
      }
    }
  }

  lemma WriteInv(c: Conn, result: WriteResult)
    requires Inv(c)
    ensures Inv(HandleWrite(c, result))
  {
    if c.writing && result.Wrote? && 0 < result.n <= |c.out| {
      assert c.out == c.out[..result.n] + c.out[result.n..];
      assert c.wire + c.out == c.wire + c.out[..result.n] + c.out[result.n..];
    }
  }

  // Bytes taken by the kernel followed by the buffer are the accepted messages in order, write interest is on
  // exactly while bytes wait, and the write side is shut down at most once, with nothing waiting.
  lemma StepInv(c: Conn, e: Event)
    requires Inv(c) && Admissible(c, e)
    ensures Inv(Step(c, e))
  {
    match e
    case Send(message, result) => SendInv(c, message, result);
    case Writable(result) => WriteInv(c, result);
    case _ =>
  }

  // Once the write side is shut down nothing more is handed to the kernel or accepted.
  lemma NothingAfterShutdown(c: Conn, e: Event)
    requires Inv(c) && Admissible(c, e) && c.shutdowns == 1
    ensures Step(c, e).wire == c.wire == c.accepted == Step(c, e).accepted && Step(c, e).shutdowns == 1
  {
  }

  // ---------- Whole runs ----------

  function Run(c: Conn, es: seq<Event>): Conn {
    if es == [] then c else Step(Run(c, es[..|es| - 1]), es[|es| - 1])
  }

  ghost predicate AdmissibleRun(c: Conn, es: seq<Event>) {
    es == [] || (AdmissibleRun(c, es[..|es| - 1]) && Admissible(Run(c, es[..|es| - 1]), es[|es| - 1]))
  }

  lemma {:induction false} RunInv(c: Conn, es: seq<Event>)
    requires Inv(c) && AdmissibleRun(c, es)
    ensures Inv(Run(c, es))
  {
    hide Inv, Step, Admissible;
    if es != [] {
      RunInv(c, es[..|es| - 1]);
      StepInv(Run(c, es[..|es| - 1]), es[|es| - 1]);
    }
  }

  // After every run of a connection: conservation, one shutdown at most and only after the last byte.
  lemma EveryRun(mark: nat, complete: bool, high: bool, es: seq<Event>)
    requires AdmissibleRun(Fresh(mark, complete, high), es)
    ensures
      var c := Run(Fresh(mark, complete, high), es);
      && c.wire + c.out == c.accepted
      && (c.state != Disconnected ==> (c.writing <==> c.out != []))
      && c.shutdowns <= 1 && (c.shutdowns == 1 ==> c.wire == c.accepted)
  {
    assert Inv(Fresh(mark, complete, high));
    RunInv(Fresh(mark, complete, high), es);
  }

  // The messages of a run that the connection took: sent while connected, unless dropped whole.
  ghost function TakenMessages(c: Conn, es: seq<Event>): seq<byte> {
    if es == [] then [] else
    var before, e := Run(c, es[..|es| - 1]), es[|es| - 1];
    var taken := TakenMessages(c, es[..|es| - 1]);
    if e.Send? && before.state == Connected && !(before.out == [] && e.result.PeerGone?) then taken + e.message
    else taken
  }

  // Conservation in terms of the calls: kernel bytes then buffered bytes are the taken messages, in order.
  lemma {:induction false} Conservation(c: Conn, es: seq<Event>)
    requires Inv(c) && c.accepted == [] && AdmissibleRun(c, es)
    ensures Run(c, es).wire + Run(c, es).out == TakenMessages(c, es)
  {
    RunInv(c, es);
    if es != [] {
      var before, e := Run(c, es[..|es| - 1]), es[|es| - 1];
      Conservation(c, es[..|es| - 1]);
      RunInv(c, es[..|es| - 1]);
      AcceptedStep(before, e);
    }
  }

  // A message sent while connected is accepted whole, unless a direct write is refused for good: then it is dropped
  // whole and nothing changes.
  lemma AcceptedStep(c: Conn, e: Event)
    requires Inv(c) && Admissible(c, e)
    ensures Step(c, e).accepted ==
      if e.Send? && c.state == Connected && !(c.out == [] && e.result.PeerGone?) then c.accepted + e.message
      else c.accepted
    ensures e.Send? && c.state == Connected && c.out == [] && e.result.PeerGone? ==> Step(c, e) == c
  {
  }

  // In any run after the write side was shut down, not a byte is written.
  lemma {:induction false} RunAfterShutdown(c: Conn, es: seq<Event>)
    requires Inv(c) && AdmissibleRun(c, es) && c.shutdowns == 1
    ensures Run(c, es).wire == c.wire == c.accepted == Run(c, es).accepted && Run(c, es).shutdowns == 1
  {
    hide Inv, Step, Admissible;
    if es == [] {
      ShutWire(c);
    } else {
      RunAfterShutdown(c, es[..|es| - 1]);
      RunInv(c, es[..|es| - 1]);
      NothingAfterShutdown(Run(c, es[..|es| - 1]), es[|es| - 1]);
    }
  }

  lemma ShutWire(c: Conn)
    requires Inv(c) && c.shutdowns == 1
    ensures c.wire == c.accepted
  {
  }

  // ---------- Notifications ----------

  // Step e queues a note of the given kind.
  ghost predicate Queues(c: Conn, e: Event, note: Note) {
    var notes := Step(c, e).notes;
    |notes| == |c.notes| + 1 && notes[..|c.notes|] == c.notes && notes[|c.notes|] == note
  }

  // Each step queues at most one note, and write-complete only when every accepted byte has been handed over.
  lemma StepNotes(c: Conn, e: Event)
    requires Inv(c) && Admissible(c, e)
    ensures Step(c, e).notes == c.notes || exists note :: Queues(c, e, note)
    ensures Queues(c, e, WriteComplete) ==> Step(c, e).wire == Step(c, e).accepted && Step(c, e).out == []
    ensures forall len :: Queues(c, e, HighWater(len)) ==>
      |c.out| < c.mark <= |Step(c, e).out| == len && Step(c, e).mark == c.mark
  {
    StepInv(c, e);
    match e
    case Send(message, result) =>
      SendNotes(c, message, result);
      var r := SendOn(c, message, result);
      if r.notes != c.notes {
        assert r.notes[..|c.notes|] == c.notes;
        assert Queues(c, e, r.notes[|c.notes|]);
      }
    case Writable(result) =>
      var r := HandleWrite(c, result);
      if r.notes != c.notes {
        assert Queues(c, e, WriteComplete);
      }
    case _ =>
  }

  lemma SendNotes(c: Conn, message: seq<byte>, result: WriteResult)
    requires Inv(c) && (result.Wrote? ==> result.n <= |message|)
    ensures
      var r := SendOn(c, message, result);
      || r.notes == c.notes
      || (r.notes == c.notes + [WriteComplete] && r.out == [])
      || (|c.out| < c.mark <= |r.out| && r.notes == c.notes + [HighWater(|r.out|)])
    ensures SendOn(c, message, result).mark == c.mark
  {
  }

  lemma SendMark(c: Conn, message: seq<byte>, result: WriteResult)
    ensures SendOn(c, message, result).mark == c.mark
  {
  }

  lemma WriteMark(c: Conn, result: WriteResult)
    ensures HandleWrite(c, result).mark == c.mark
  {
  }

  lemma StepMark(c: Conn, e: Event)
    ensures Step(c, e).mark == c.mark
  {
    hide SendOn, HandleWrite;
    match e
    case Send(message, result) => SendMark(c, message, result);
    case Writable(result) => WriteMark(c, result);
    case _ =>
  }

  lemma {:induction false} MarkFixed(c: Conn, es: seq<Event>)
    ensures Run(c, es).mark == c.mark
  {
    hide Step;
    if es != [] {
      MarkFixed(c, es[..|es| - 1]);
      StepMark(Run(c, es[..|es| - 1]), es[|es| - 1]);
    }
  }

  lemma {:induction false} AdmissiblePrefix(c: Conn, es: seq<Event>, i: nat)
    requires AdmissibleRun(c, es) && i < |es|
    ensures AdmissibleRun(c, es[..i]) && Admissible(Run(c, es[..i]), es[i])
    decreases |es|
  {
    hide Step, Admissible;
    if i < |es| - 1 {
      AdmissiblePrefix(c, es[..|es| - 1], i);
      assert es[..|es| - 1][..i] == es[..i];
    }
  }

  // Between two high-water notifications of a run the buffered length was below the mark.
  lemma HighWaterEdge(c: Conn, es: seq<Event>, i: nat, j: nat, len: nat, len': nat)
    requires Inv(c) && AdmissibleRun(c, es) && i < j < |es|
    requires Queues(Run(c, es[..i]), es[i], HighWater(len)) && Queues(Run(c, es[..j]), es[j], HighWater(len'))
    ensures |Run(c, es[..i + 1]).out| >= c.mark > |Run(c, es[..j]).out| && i + 1 < j
  {
    hide Inv, Step, Queues, AdmissibleRun, Admissible;
    assert es[..i + 1][..i] == es[..i];
    AdmissiblePrefix(c, es, i);
    AdmissiblePrefix(c, es, j);
    RunInv(c, es[..i]);
    RunInv(c, es[..j]);
    MarkFixed(c, es[..i]);
    MarkFixed(c, es[..j]);
    StepNotes(Run(c, es[..i]), es[i]);
    StepNotes(Run(c, es[..j]), es[j]);
  }

  // In any run, a write-complete notification is queued only with no accepted byte still waiting.
  lemma WriteCompleteDrained(c: Conn, es: seq<Event>, i: nat)
    requires Inv(c) && AdmissibleRun(c, es) && i < |es| && Queues(Run(c, es[..i]), es[i], WriteComplete)
    ensures Run(c, es[..i + 1]).out == [] && Run(c, es[..i + 1]).wire == Run(c, es[..i + 1]).accepted
  {
    hide Inv, Step, Queues, AdmissibleRun, Admissible;
    assert es[..i + 1][..i] == es[..i];
    AdmissiblePrefix(c, es, i);
    RunInv(c, es[..i]);
    StepNotes(Run(c, es[..i]), es[i]);
  }

  // ---------- Exactly what each event does ----------

  // A write shuts down exactly if it empties the buffer of a disconnecting connection.
  lemma WriteShuts(c: Conn, result: WriteResult)
    requires Inv(c)
    ensures
      var r := HandleWrite(c, result);
      && r.state == c.state
      && r.shutdowns == c.shutdowns + (if c.state == Disconnecting && c.writing && r.out == [] then 1 else 0)
  {
  }

  // The kernel gets exactly the bytes a write took: the front of the message, or the front of the buffer.
  lemma WireStep(c: Conn, e: Event)
    requires Inv(c) && Admissible(c, e)
    ensures Step(c, e).wire == c.wire +
      if e.Send? && c.state == Connected && c.out == [] && e.result.Wrote? then e.message[..e.result.n]
      else if e.Writable? && c.state != Disconnected && e.result.Wrote? then c.out[..e.result.n]
      else []
  {
    match e
    case Send(message, result) => SendWire(c, message, result);
    case Writable(result) =>
      if result.Wrote? && result.n == 0 {
        assert c.wire + c.out[..0] == c.wire;
      }
    case _ =>
  }

  lemma SendWire(c: Conn, message: seq<byte>, result: WriteResult)
    requires Inv(c) && (result.Wrote? ==> result.n <= |message|)
    ensures SendOn(c, message, result).wire == c.wire +
      if c.state == Connected && c.out == [] && result.Wrote? then message[..result.n] else []
  {
  }

  // Write-complete is queued, if it is wanted, exactly when a write takes all there is to write.
  ghost predicate TakesAll(c: Conn, e: Event) {
    || (e.Send? && c.state == Connected && c.out == [] && e.result == Wrote(|e.message|))
    || (e.Writable? && c.state != Disconnected && c.out != [] && e.result == Wrote(|c.out|))
  }

  lemma CompleteExact(c: Conn, e: Event)
    requires Inv(c) && Admissible(c, e)
    ensures Queues(c, e, WriteComplete) <==> c.wantsComplete && TakesAll(c, e)
  {
    match e
    case Send(message, result) =>
      var r := SendOn(c, message, result);
      SendNotes(c, message, result);
      SendComplete(c, message, result);
      assert r.notes == c.notes + [WriteComplete] ==> r.notes[..|c.notes|] == c.notes;
    case Writable(result) =>
      var r := HandleWrite(c, result);
      assert r.notes == c.notes + [WriteComplete] ==> r.notes[..|c.notes|] == c.notes;
    case _ =>
  }

  lemma SendComplete(c: Conn, message: seq<byte>, result: WriteResult)
    requires Inv(c) && (result.Wrote? ==> result.n <= |message|)
    ensures SendOn(c, message, result).notes == c.notes + [WriteComplete] <==>
      c.wantsComplete && c.state == Connected && c.out == [] && result == Wrote(|message|)
  {
    SendNotes(c, message, result);
    var r := SendOn(c, message, result);
    var complete, high := c.notes + [WriteComplete], c.notes + [HighWater(|r.out|)];
    assert complete[|c.notes|] != high[|c.notes|];
    if c.state == Connected && c.out == [] && result == Wrote(|message|) {
      assert message[result.n..] == [];
    }
  }

  // High-water is queued, if it is wanted, exactly when the buffered length reaches the mark from below, with the
  // length it has then.
  lemma HighWaterExact(c: Conn, e: Event, len: nat)
    requires Inv(c) && Admissible(c, e)
    ensures Queues(c, e, HighWater(len)) <==> c.wantsHighWater && |c.out| < c.mark <= |Step(c, e).out| == len
  {
    match e
    case Send(message, result) =>
      var r := SendOn(c, message, result);
      SendNotes(c, message, result);
      SendHighWater(c, message, result);
      assert r.notes == c.notes + [HighWater(|r.out|)] ==> r.notes[..|c.notes|] == c.notes;
    case _ =>
  }

  lemma SendHighWater(c: Conn, message: seq<byte>, result: WriteResult)
    requires Inv(c) && (result.Wrote? ==> result.n <= |message|)
    ensures
      var r := SendOn(c, message, result);
      r.notes == c.notes + [HighWater(|r.out|)] <==> c.wantsHighWater && |c.out| < c.mark <= |r.out|
  {
    SendNotes(c, message, result);
    var r := SendOn(c, message, result);
    var complete, high := c.notes + [WriteComplete], c.notes + [HighWater(|r.out|)];
    assert complete[|c.notes|] != high[|c.notes|] && |high| == |c.notes| + 1;
  }

  // The state moves from connecting to connected, disconnecting and disconnected, exactly on these events; reading is
  // on from the start until it is stopped or the connection closes.
  lemma StateStep(c: Conn, e: Event)
    requires Admissible(c, e)
    ensures
      var closes := e.Close? || (e.ForceCloseInLoop? && (c.state == Connected || c.state == Disconnecting)) ||
                    (e.Destroy? && c.state == Connected);
      && Step(c, e).state ==
         (if closes then Disconnected
          else if e.Establish? then Connected
          else if (e.Shutdown? || e.ForceClose?) && c.state == Connected then Disconnecting
          else c.state)
      && Step(c, e).reading ==
         (if closes || e.StopRead? then false else if e.Establish? || e.StartRead? then true else c.reading)
  {
    match e
    case Send(message, result) => SendKeeps(c, message, result);
    case _ =>
  }

  lemma SendKeeps(c: Conn, message: seq<byte>, result: WriteResult)
    ensures SendOn(c, message, result).state == c.state && SendOn(c, message, result).reading == c.reading
  {
  }

  // ---------- The half-close happens ----------

  // shutdown was called on the connected connection.
  ghost predicate Asked(c: Conn, es: seq<Event>) {
    es != [] &&
    (Asked(c, es[..|es| - 1]) || (es[|es| - 1].Shutdown? && Run(c, es[..|es| - 1]).state == Connected))
  }

  // Once asked for, the write side is shut down as soon as nothing waits; and it is shut down only when it was asked
  // for or the connection is being forced to close.
  ghost predicate HalfCloses(c: Conn, asked: bool, forced: bool) {
    && (asked ==> c.state == Disconnecting || c.state == Disconnected)
    && (asked && c.state == Disconnecting && c.out == [] ==> c.shutdowns == 1)
    && (c.state == Disconnecting || c.shutdowns == 1 ==> asked || forced)
  }

  lemma HalfCloseStep(c: Conn, e: Event, asked: bool, forced: bool)
    requires Inv(c) && Admissible(c, e) && HalfCloses(c, asked, forced)
    ensures HalfCloses(Step(c, e), asked || (e.Shutdown? && c.state == Connected), forced || e.ForceClose?)
  {
    match e
    case Send(message, result) => SendShuts(c, message, result);
    case _ =>
  }

  lemma SendShuts(c: Conn, message: seq<byte>, result: WriteResult)
    ensures SendOn(c, message, result).shutdowns == c.shutdowns && SendOn(c, message, result).state == c.state
    ensures c.state != Connected ==> SendOn(c, message, result) == c
  {
  }

  lemma {:induction false} HalfCloseRun(c: Conn, es: seq<Event>)
    requires Inv(c) && c.state == Connecting && AdmissibleRun(c, es)
    ensures Inv(Run(c, es)) && HalfCloses(Run(c, es), Asked(c, es), ForceClose in es)
  {
    hide Inv, Step, Admissible, HalfCloses;
    if es == [] {
      HalfCloseStart(c);
    } else {
      var init, e := es[..|es| - 1], es[|es| - 1];
      assert es == init + [e];
      HalfCloseRun(c, init);
      StepInv(Run(c, init), e);
      HalfCloseStep(Run(c, init), e, Asked(c, init), ForceClose in init);
    }
  }

  lemma HalfCloseStart(c: Conn)
    requires Inv(c) && c.state == Connecting
    ensures HalfCloses(c, false, false)
  {
  }

  // In every run: after shutdown, while the connection is not closed, the write side is shut down exactly when every
  // accepted byte has been handed over; without shutdown and forceClose it never is.
  lemma ShutdownHappens(mark: nat, complete: bool, high: bool, es: seq<Event>)
    requires AdmissibleRun(Fresh(mark, complete, high), es)
    ensures
      var start := Fresh(mark, complete, high);
      var c := Run(start, es);
      && (Asked(start, es) && c.state != Disconnected ==>
        c.state == Disconnecting && (c.shutdowns == 1 <==> c.wire == c.accepted))
      && (c.state == Disconnecting && ForceClose !in es ==> (c.shutdowns == 1 <==> c.out == []))
      && (c.shutdowns == 1 ==> Asked(start, es) || ForceClose in es)
  {
    hide Run, AdmissibleRun, Asked;
    var start := Fresh(mark, complete, high);
    HalfCloseRun(start, es);
    var c := Run(start, es);
    assert c.wire + c.out == c.accepted;
    assert c.wire == c.accepted <==> c.out == [];
  }
}
