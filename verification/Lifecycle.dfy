/**
 The life of a server's connections: net/tcp_server.cc, the closing half of net/tcp_connection.cc and the
 dispatch of net/channel.cc, over the poller.

 Functors queued on a loop are the sets `establishing`, `removing` and `destroying`; a queued functor may run
 at any later moment its loop allows.  A failed assert is a `Crash`.
 */
module Lifecycle {
  import opened ConnectionStates
  import opened Outcomes
  import P = Pollers

  // What epoll reports for a descriptor.
  datatype Revents = Revents(input: bool, pri: bool, rdhup: bool, hup: bool, err: bool, output: bool)

  // What the message callback does to the interest mask.
  datatype Change = Keep | SetTo(mask: P.Mask)

  // `connections` are the keys of connections_, each the number in the connection's name.  `active` are the
  // events of the present dispatch not yet handled.  `erased` and `removed` record erasures from connections_
  // and channels taken out of the poller.
  datatype Server = Server(
    poller: P.Poller, state: map<nat, State>, connections: set<nat>, nextId: nat,
    establishing: set<nat>, removing: set<nat>, destroying: set<nat>,
    dispatching: bool, active: map<nat, Revents>,
    erased: seq<nat>, removed: seq<nat>)

  datatype Event =
    | Accept(fd: int)
    | RunEstablish(conn: nat)
    | SetInterest(conn: nat, mask: P.Mask)
    | BeginClosing(conn: nat)
    | RunForceClose(conn: nat)
    | BeginDispatch(events: map<nat, Revents>)
    | Handle(conn: nat, eof: bool, change: Change, drained: bool)
    | EndDispatch
    | RunRemove(conn: nat)
    | RunDestroy(conn: nat)

  function WithMask(s: Server, c: nat, mask: P.Mask): Outcome<Server> {
    if c !in s.poller.chans then Crash else
    match P.SetMask(s.poller, c, mask)
    case Crash => Crash
    case Ok(p) => Ok(s.(poller := p))
  }

  // TcpConnection::handleClose; the close callback asks the server to remove the connection.
  function HandleClose(s: Server, c: nat): Outcome<Server> {
    if c !in s.state || !(s.state[c] == Connected || s.state[c] == Disconnecting) then Crash else
    match WithMask(s.(state := s.state[c := Disconnected]), c, P.NONE)
    case Crash => Crash
    case Ok(t) => Ok(t.(removing := t.removing + {c}))
  }

  // TcpConnection::handleWrite, as far as it changes the interest mask.
  function HandleWrite(s: Server, c: nat, drained: bool): Outcome<Server> {
    if c !in s.poller.chans then Crash
    else if s.poller.chans[c].mask.write && drained then WithMask(s, c, s.poller.chans[c].mask.(write := false))
    else Ok(s)
  }

  // TcpConnection::handleRead: the end of the stream closes the connection, data goes to the message callback.
  function HandleRead(s: Server, c: nat, eof: bool, change: Change): Outcome<Server> {
    if eof then HandleClose(s, c) else if change.SetTo? then WithMask(s, c, change.mask) else Ok(s)
  }

  // Channel::handleEventWithGuard: close, read and write callbacks in this order; errors change nothing.
  function HandleEvent(s: Server, c: nat, r: Revents, eof: bool, change: Change, drained: bool): Outcome<Server> {
    match (if r.hup && !r.input then HandleClose(s, c) else Ok(s))
    case Crash => Crash
    case Ok(s1) =>
      match (if r.input || r.pri || r.rdhup then HandleRead(s1, c, eof, change) else Ok(s1))
      case Crash => Crash
      case Ok(s2) => if r.output then HandleWrite(s2, c, drained) else Ok(s2)
  }

  // TcpConnection::connectDestroyed; then the last reference goes.
  function Destroyed(s: Server, c: nat): Outcome<Server> {
    if c !in s.state || c !in s.poller.chans then Crash else
    match (if s.state[c] == Connected then WithMask(s.(state := s.state[c := Disconnected]), c, P.NONE) else Ok(s))
    case Crash => Crash
    case Ok(s1) =>
      if c !in s1.poller.chans then Crash else
      match P.Remove(s1.poller, c)
      case Crash => Crash
      case Ok(p) => Ok(s1.(poller := p.(chans := p.chans - {c}), state := s1.state - {c}, removed := s1.removed + [c]))
  }

  function Step(s: Server, e: Event): Outcome<Server> {
    match e
    case Accept(fd) =>
      var c := s.nextId;
      Ok(s.(nextId := c + 1, state := s.state[c := Connecting], connections := s.connections + {c},
            establishing := s.establishing + {c},
            poller := s.poller.(chans := s.poller.chans[c := P.Channel(fd, P.NONE, P.New)])))
    case RunEstablish(c) =>
      if c !in s.state || s.state[c] != Connecting then Crash else
      WithMask(s.(state := s.state[c := Connected], establishing := s.establishing - {c}), c, P.Mask(true, false))
    case SetInterest(c, mask) => WithMask(s, c, mask)
    case BeginClosing(c) =>
      Ok(if c in s.state && s.state[c] == Connected then s.(state := s.state[c := Disconnecting]) else s)
    case RunForceClose(c) =>
      if c in s.state && (s.state[c] == Connected || s.state[c] == Disconnecting) then HandleClose(s, c) else Ok(s)
    case BeginDispatch(events) => Ok(s.(dispatching := true, active := events))
    case Handle(c, eof, change, drained) =>
      if c !in s.active then Crash else HandleEvent(s.(active := s.active - {c}), c, s.active[c], eof, change, drained)
    case EndDispatch => Ok(s.(dispatching := false))
    case RunRemove(c) =>
      if c !in s.connections then Crash else
      Ok(s.(connections := s.connections - {c}, removing := s.removing - {c}, destroying := s.destroying + {c},
            erased := s.erased + [c]))
    case RunDestroy(c) => Destroyed(s.(destroying := s.destroying - {c}), c)
  }

  // ---------- What may happen next ----------

  predicate Live(s: Server, c: nat) {
    c in s.state && (s.state[c] == Connected || s.state[c] == Disconnecting)
  }

  predicate HasInterest(s: Server, c: nat) {
    c in s.poller.chans && s.poller.chans[c].mask != P.NONE
  }

  // The kernel reports what was asked for, and always errors and hang-ups.
  predicate Reported(s: Server, c: nat, r: Revents) {
    && c in s.poller.chans && s.poller.chans[c].fd in s.poller.kernel
    && var mask := s.poller.kernel[s.poller.chans[c].fd].1;
      (r.input ==> mask.read) && (r.pri ==> mask.read) && !r.rdhup && (r.output ==> mask.write)
  }

  // A hang-up without input that comes with priority input: the close callback runs, and then the read callback.
  predicate ClosesThenReads(r: Revents) {
    r.hup && !r.input && (r.pri || r.rdhup)
  }

  // Interest that is not there is not taken away: stopRead and disableWriting are guarded.
  predicate Allowed(s: Server, c: nat, change: Change) {
    change == SetTo(P.NONE) ==> HasInterest(s, c)
  }

  predicate Admissible(s: Server, e: Event) {
    match e
    case Accept(fd) => forall c :: c in s.poller.chans ==> s.poller.chans[c].fd != fd
    case RunEstablish(c) => c in s.establishing
    // startRead, stopRead and the output path, on a connection that is not disconnected.
    case SetInterest(c, mask) => Live(s, c) && Allowed(s, c, SetTo(mask))
    case BeginClosing(c) => true
    case RunForceClose(c) => !s.dispatching
    case BeginDispatch(events) =>
      !s.dispatching && forall c :: c in events ==> Reported(s, c, events[c])
    // On a disconnected connection the message callback can start or stop reading; sending does nothing.
    case Handle(c, _, change, _) =>
      && s.dispatching && c in s.active && Allowed(s, c, change)
      && (ClosesThenReads(s.active[c]) && change.SetTo? ==> !change.mask.write)
    case EndDispatch => s.dispatching && s.active == map[]
    case RunRemove(c) => c in s.removing
    case RunDestroy(c) => c in s.destroying && !s.dispatching
  }

  // Event e closes connection c.
  predicate Closes(s: Server, e: Event, c: nat) {
    match e
    case RunForceClose(d) => d == c && Live(s, c)
    case Handle(d, eof, _, _) =>
      d == c && c in s.active &&
      ((s.active[c].hup && !s.active[c].input) || ((s.active[c].input || s.active[c].pri || s.active[c].rdhup) && eof))
    case _ => false
  }

  // ---------- The invariant ----------

  ghost predicate ConnInv(s: Server, c: nat)
    requires c in s.state && c in s.poller.chans
  {
    var ch := s.poller.chans[c];
    match s.state[c]
    case Connecting =>
      ch.index == P.New && ch.mask == P.NONE && c in s.connections && c in s.establishing && c !in s.removing &&
      c !in s.destroying
    case Connected => LiveInv(s, c)
    case Disconnecting => LiveInv(s, c)
    case Disconnected =>
      ch.index == P.Deleted && ch.mask == P.NONE && c !in s.establishing &&
      (c in s.removing <==> c in s.connections) && (c in s.destroying <==> c !in s.connections)
  }

  // A live connection is registered exactly while it is interested in something.
  ghost predicate LiveInv(s: Server, c: nat)
    requires c in s.poller.chans
  {
    && s.poller.chans[c].index != P.New
    && (s.poller.chans[c].index == P.Added <==> s.poller.chans[c].mask != P.NONE)
    && c in s.connections && c !in s.establishing && c !in s.removing && c !in s.destroying
  }

  ghost predicate Known(s: Server, c: nat) {
    c in s.state && c in s.poller.chans
  }

  ghost predicate Inv(s: Server) {
    && P.Inv(s.poller) && s.poller.chans.Keys == s.state.Keys
    && (forall c: nat :: Known(s, c) ==> ConnInv(s, c) && c < s.nextId)
    && (forall c :: c in s.connections || c in s.establishing || c in s.removing || c in s.destroying ==> Known(s, c))
    && (forall c :: c in s.active ==> Live(s, c))
    && (!s.dispatching ==> s.active == map[])
    && Once(s)
  }

  // Each connection is erased and unregistered at most once, in this order, and none is forgotten.
  ghost predicate Once(s: Server) {
    && (forall i, j :: 0 <= i < j < |s.erased| ==> s.erased[i] != s.erased[j])
    && (forall i, j :: 0 <= i < j < |s.removed| ==> s.removed[i] != s.removed[j])
    && (forall c :: c in s.erased ==> c < s.nextId && c !in s.connections)
    && (forall c :: c in s.removed ==> c < s.nextId && c !in s.state && c in s.erased)
    && (forall c :: c in s.destroying ==> c in s.erased)
    && forall c: nat :: 1 <= c < s.nextId ==> Accounted(s, c)
  }

  // A connection is still there or its channel has been unregistered.
  ghost predicate Accounted(s: Server, c: nat) {
    c in s.state || c in s.removed
  }

  // ---------- One connection changes ----------

  // t differs from s at most in what concerns connection c.
  ghost predicate SameBut(s: Server, t: Server, c: nat) {
    && (forall d: nat :: d != c ==>
      && (d in t.state <==> d in s.state) && (d in s.state ==> t.state[d] == s.state[d])
      && (d in t.poller.chans <==> d in s.poller.chans)
      && (d in s.poller.chans ==> t.poller.chans[d] == s.poller.chans[d])
      && (d in t.connections <==> d in s.connections) && (d in t.establishing <==> d in s.establishing)
      && (d in t.removing <==> d in s.removing) && (d in t.destroying <==> d in s.destroying))
    && (forall d :: d in t.active ==> d in s.active && t.active[d] == s.active[d])
    && s.nextId <= t.nextId && t.dispatching == s.dispatching
  }

  lemma InvFrom(s: Server, t: Server, c: nat)
    requires Inv(s) && SameBut(s, t, c) && P.Inv(t.poller) && Once(t)
    requires c in t.state <==> c in t.poller.chans
    requires Known(t, c) ==> ConnInv(t, c) && c < t.nextId
    requires c in t.connections || c in t.establishing || c in t.removing || c in t.destroying ==> Known(t, c)
    requires c in t.active ==> Live(t, c)
    ensures Inv(t)
  {
    hide P.Inv, Once;
    forall d: nat | Known(t, d) ensures ConnInv(t, d) && d < t.nextId {
      if d != c {
        assert Known(s, d);
      }
    }
    assert t.poller.chans.Keys == t.state.Keys;
    forall d | d in t.connections || d in t.establishing || d in t.removing || d in t.destroying
      ensures Known(t, d)
    {
      assert d != c ==> Known(s, d);
    }
    forall d | d in t.active ensures Live(t, d) {
      assert d in s.active && Live(s, d);
    }
  }

  lemma OnceKept(s: Server, t: Server)
    requires Once(s) && t.erased == s.erased && t.removed == s.removed && t.connections <= s.connections
    requires t.state.Keys == s.state.Keys && t.destroying <= s.destroying && s.nextId == t.nextId
    ensures Once(t)
  {
    forall c: nat | 1 <= c < t.nextId ensures Accounted(t, c) {
      assert Accounted(s, c);
    }
  }

  // Setting the mask of a known channel.
  lemma MaskSafe(s: Server, c: nat, mask: P.Mask)
    requires P.Inv(s.poller) && c in s.poller.chans
    ensures WithMask(s, c, mask).Ok? && P.Inv(WithMask(s, c, mask).value.poller)
    ensures
      var t := WithMask(s, c, mask).value;
      var ch := s.poller.chans[c];
      && t == s.(poller := t.poller)
      && t.poller.chans == s.poller.chans[c := P.Channel(ch.fd, mask, P.IndexAfter(ch, mask))]
  {
    hide P.Inv;
    P.SetMaskSafe(s.poller, c, mask);
  }

  lemma ConnFacts(s: Server, c: nat)
    requires Inv(s)
    requires c in s.state || c in s.connections || c in s.establishing || c in s.removing || c in s.destroying
    ensures Known(s, c) && ConnInv(s, c) && c < s.nextId && P.Inv(s.poller) && Once(s)
    ensures c in s.active ==> Live(s, c)
  {
    assert Known(s, c);
  }

  lemma EstablishSafe(s: Server, c: nat)
    requires Inv(s) && c in s.establishing
    ensures Step(s, RunEstablish(c)).Ok? && Inv(Step(s, RunEstablish(c)).value)
  {
    hide Inv, Once, P.Inv, WithMask;
    ConnFacts(s, c);
    var s1 := s.(state := s.state[c := Connected], establishing := s.establishing - {c});
    MaskSafe(s1, c, P.Mask(true, false));
    var t := Step(s, RunEstablish(c)).value;
    OnceKept(s, t);
    InvFrom(s, t, c);
  }

  lemma InterestSafe(s: Server, c: nat, mask: P.Mask)
    requires Inv(s) && Live(s, c) && (mask == P.NONE ==> HasInterest(s, c))
    ensures WithMask(s, c, mask).Ok? && Inv(WithMask(s, c, mask).value)
  {
    hide Inv, Once, P.Inv, WithMask;
    ConnFacts(s, c);
    MaskSafe(s, c, mask);
    var t := WithMask(s, c, mask).value;
    OnceKept(s, t);
    InvFrom(s, t, c);
  }

  // Closing a connection that still has interest takes it out of the kernel for good.
  lemma CloseSafe(s: Server, c: nat)
    requires Inv(s) && Live(s, c) && HasInterest(s, c) && c !in s.active
    ensures HandleClose(s, c).Ok? && Inv(HandleClose(s, c).value)
    ensures
      var t := HandleClose(s, c).value;
      && t.state == s.state[c := Disconnected] && t.active == s.active && t.dispatching == s.dispatching
      && c in t.poller.chans && t.poller.chans[c].mask == P.NONE
  {
    hide Inv, Once, P.Inv, WithMask;
    ConnFacts(s, c);
    MaskSafe(s.(state := s.state[c := Disconnected]), c, P.NONE);
    var t := HandleClose(s, c).value;
    OnceKept(s, t);
    InvFrom(s, t, c);
  }

  // The next connection's number is in use nowhere.
  lemma NextIdFree(s: Server)
    requires Inv(s)
    ensures
      var c := s.nextId;
      && c !in s.state && c !in s.poller.chans && c !in s.connections && c !in s.establishing && c !in s.removing
      && c !in s.destroying && c !in s.active && P.Inv(s.poller) && Once(s)
  {
    hide P.Inv, Once;
    assert !Known(s, s.nextId);
    assert s.nextId in s.active ==> Live(s, s.nextId);
  }

  lemma AcceptOnce(s: Server, fd: int)
    requires Once(s)
    ensures Once(Step(s, Accept(fd)).value)
  {
    var t := Step(s, Accept(fd)).value;
    forall d: nat | 1 <= d < t.nextId ensures Accounted(t, d) {
      assert d < s.nextId ==> Accounted(s, d);
    }
  }

  lemma AcceptSafe(s: Server, fd: int)
    requires Inv(s) && Admissible(s, Accept(fd))
    ensures Step(s, Accept(fd)).Ok? && Inv(Step(s, Accept(fd)).value)
  {
    hide P.Inv, Inv, Once;
    NextIdFree(s);
    P.CreateSafe(s.poller, s.nextId, fd);
    AcceptOnce(s, fd);
    InvFrom(s, Step(s, Accept(fd)).value, s.nextId);
  }

  lemma RemoveSafe(s: Server, c: nat)
    requires Inv(s) && c in s.removing
    ensures Step(s, RunRemove(c)).Ok? && Inv(Step(s, RunRemove(c)).value)
  {
    hide Inv, P.Inv;
    ConnFacts(s, c);
    var t := Step(s, RunRemove(c)).value;
    assert c !in s.erased;
    assert Once(t) by {
      forall d: nat | 1 <= d < t.nextId ensures Accounted(t, d) {
        assert Accounted(s, d);
      }
    }
    InvFrom(s, t, c);
  }

  // connectDestroyed: the channel was added once; unless the connection is still connected it has no interest.
  predicate Destroyable(s: Server, c: nat) {
    && c in s.state && c in s.poller.chans && s.poller.chans[c].index != P.New
    && (s.state[c] != Connected ==> s.poller.chans[c].mask == P.NONE)
  }

  lemma DestroyedIs(s: Server, c: nat)
    requires P.Inv(s.poller) && Destroyable(s, c)
    ensures Destroyed(s, c).Ok? && P.Inv(Destroyed(s, c).value.poller)
    ensures
      var t := Destroyed(s, c).value;
      && t.poller.chans == s.poller.chans - {c} && t.state == s.state - {c} && t.removed == s.removed + [c]
      && t == s.(poller := t.poller, state := t.state, removed := t.removed)
  {
    hide P.Inv, WithMask;
    var s1 := s;
    if s.state[c] == Connected {
      s1 := s.(state := s.state[c := Disconnected]);
      MaskSafe(s1, c, P.NONE);
      s1 := WithMask(s1, c, P.NONE).value;
    }
    P.RemoveSafe(s1.poller, c);
    P.DropSafe(P.Remove(s1.poller, c).value, c);
  }

  lemma DestroySafe(s: Server, c: nat)
    requires Inv(s) && c in s.destroying && !s.dispatching
    ensures Step(s, RunDestroy(c)).Ok? && Inv(Step(s, RunDestroy(c)).value)
  {
    hide Inv, P.Inv, Destroyed;
    ConnFacts(s, c);
    NoneActive(s);
    DestroyedIs(s.(destroying := s.destroying - {c}), c);
    var t := Step(s, RunDestroy(c)).value;
    assert c in s.erased && c !in s.removed;
    assert Once(t) by {
      forall d: nat | 1 <= d < t.nextId ensures Accounted(t, d) {
        assert Accounted(s, d);
      }
    }
    InvFrom(s, t, c);
  }

  lemma NoneActive(s: Server)
    requires Inv(s) && !s.dispatching
    ensures s.active == map[]
  {
  }

  lemma TakeActive(s: Server, c: nat)
    requires Inv(s) && s.dispatching && c in s.active
    ensures Inv(s.(active := s.active - {c})) && Live(s, c)
  {
    hide Once, P.Inv;
    assert Live(s, c);
    ConnFacts(s, c);
    var t := s.(active := s.active - {c});
    OnceKept(s, t);
    assert Known(t, c) ==> ConnInv(t, c);
    InvFrom(s, t, c);
  }

  lemma HandleSafe(s: Server, c: nat, eof: bool, change: Change, drained: bool)
    requires Inv(s) && Admissible(s, Handle(c, eof, change, drained)) && Sound(s, Handle(c, eof, change, drained))
    ensures Step(s, Handle(c, eof, change, drained)).Ok? && Inv(Step(s, Handle(c, eof, change, drained)).value)
  {
    hide P.Inv, Inv, HandleClose, WithMask;
    var r := s.active[c];
    var s0 := s.(active := s.active - {c});
    TakeActive(s, c);
    LiveAfter(s, s0, c);
    if Closes(s, Handle(c, eof, change, drained), c) {
      CloseSafe(s0, c);
    } else {
      var readable := r.input || r.pri || r.rdhup;
      ChangeSafe(s0, c, if readable then change else Keep);
      var s1 := if readable then HandleRead(s0, c, eof, change).value else s0;
      if r.output && s1.poller.chans[c].mask.write && drained {
        DrainSafe(s1, c);
      }
    }
  }

  lemma ChangeSafe(s: Server, c: nat, change: Change)
    requires Inv(s) && Live(s, c) && Allowed(s, c, change)
    ensures HandleRead(s, c, false, change).Ok?
    ensures
      var t := HandleRead(s, c, false, change).value;
      Inv(t) && Live(t, c) && c in t.poller.chans && t.active == s.active
  {
    hide P.Inv, Inv, WithMask;
    ConnFacts(s, c);
    if change.SetTo? {
      InterestSafe(s, c, change.mask);
      MaskSafe(s, c, change.mask);
    }
  }

  lemma LiveAfter(s: Server, s0: Server, c: nat)
    requires Inv(s) && c in s.active && s0 == s.(active := s.active - {c})
    ensures Live(s0, c) && Known(s, c) && c !in s0.active
  {
  }

  lemma DrainSafe(s: Server, c: nat)
    requires Inv(s) && Live(s, c) && c in s.poller.chans && s.poller.chans[c].mask.write
    ensures
      var mask := s.poller.chans[c].mask.(write := false);
      WithMask(s, c, mask).Ok? && Inv(WithMask(s, c, mask).value)
  {
    InterestSafe(s, c, s.poller.chans[c].mask.(write := false));
  }

  lemma DispatchSafe(s: Server, events: map<nat, Revents>)
    requires Inv(s) && Admissible(s, BeginDispatch(events))
    ensures Step(s, BeginDispatch(events)).Ok? && Inv(Step(s, BeginDispatch(events)).value)
  {
    hide P.Inv, Once;
    var t := Step(s, BeginDispatch(events)).value;
    forall c | c in events ensures Live(t, c) {
      ReportedLive(s, c, events[c]);
    }
    forall c: nat | Known(t, c) ensures ConnInv(t, c) {
      assert Known(s, c);
    }
    OnceKept(s, t);
  }

  // Only live connections are registered, so only they are reported.
  lemma ReportedLive(s: Server, c: nat, r: Revents)
    requires Inv(s) && Reported(s, c, r)
    ensures Live(s, c)
  {
    hide Once;
    assert Known(s, c);
    assert P.ChannelAgrees(s.poller, c);
  }

  // Event e closes a live connection only while it has interest, and none that was just closed is closed again or
  // given interest.
  ghost predicate Sound(s: Server, e: Event) {
    && (forall c: nat :: Closes(s, e, c) && Live(s, c) ==> HasInterest(s, c))
    && (e.Handle? && e.conn in s.active && ClosesThenReads(s.active[e.conn]) ==> !e.eof && e.change == Keep)
  }

  lemma InterestStep(s: Server, c: nat, mask: P.Mask)
    requires Inv(s) && Admissible(s, SetInterest(c, mask))
    ensures Step(s, SetInterest(c, mask)).Ok? && Inv(Step(s, SetInterest(c, mask)).value)
  {
    InterestSafe(s, c, mask);
  }

  // A sound event fails no assert and keeps the invariant.
  lemma StepSafe(s: Server, e: Event)
    requires Inv(s) && Admissible(s, e) && Sound(s, e)
    ensures Step(s, e).Ok? && Inv(Step(s, e).value)
  {
    hide Inv, Step;
    match e
    case Accept(fd) => AcceptSafe(s, fd);
    case RunEstablish(c) => EstablishSafe(s, c);
    case SetInterest(c, mask) => InterestStep(s, c, mask);
    case BeginClosing(c) => ClosingSafe(s, c);
    case RunForceClose(c) => ForceSafe(s, c);
    case BeginDispatch(events) => DispatchSafe(s, events);
    case Handle(c, eof, change, drained) => HandleSafe(s, c, eof, change, drained);
    case EndDispatch => EndSafe(s);
    case RunRemove(c) => RemoveSafe(s, c);
    case RunDestroy(c) => DestroySafe(s, c);
  }

  lemma ClosingSafe(s: Server, c: nat)
    requires Inv(s)
    ensures Step(s, BeginClosing(c)).Ok? && Inv(Step(s, BeginClosing(c)).value)
  {
    hide P.Inv, Once, Inv;
    var t := Step(s, BeginClosing(c)).value;
    if c in s.state && s.state[c] == Connected {
      ConnFacts(s, c);
      OnceKept(s, t);
      InvFrom(s, t, c);
    }
  }

  lemma ForceSafe(s: Server, c: nat)
    requires Inv(s) && !s.dispatching && (Live(s, c) ==> HasInterest(s, c))
    ensures Step(s, RunForceClose(c)).Ok? && Inv(Step(s, RunForceClose(c)).value)
  {
    if Live(s, c) {
      CloseSafe(s, c);
    }
  }

  lemma EndSafe(s: Server)
    requires Inv(s) && s.dispatching && s.active == map[]
    ensures Step(s, EndDispatch).Ok? && Inv(Step(s, EndDispatch).value)
  {
    hide Once, P.Inv;
    var t := Step(s, EndDispatch).value;
    forall c: nat | Known(t, c) ensures ConnInv(t, c) {
      assert Known(s, c);
    }
    OnceKept(s, t);
  }

  // ---------- Runs ----------

  function Run(s: Server, es: seq<Event>): Outcome<Server>
    decreases |es|
  {
    if es == [] then Ok(s) else
    match Step(s, es[0])
    case Crash => Crash
    case Ok(t) => Run(t, es[1..])
  }

  // Every event may happen when it does, and is sound.
  ghost predicate Orderly(s: Server, es: seq<Event>)
    decreases |es|
  {
    es == [] ||
    (Admissible(s, es[0]) && Sound(s, es[0]) &&
     (Step(s, es[0]).Ok? ==> Orderly(Step(s, es[0]).value, es[1..])))
  }

  lemma {:induction false} RunSafe(s: Server, es: seq<Event>)
    requires Inv(s) && Orderly(s, es)
    ensures Run(s, es).Ok? && Inv(Run(s, es).value)
    decreases |es|
  {
    hide Inv, Step, Admissible, Sound;
    if es != [] {
      StepSafe(s, es[0]);
      RunSafe(Step(s, es[0]).value, es[1..]);
    }
  }

  const EMPTY := Server(P.EMPTY, map[], {}, 1, {}, {}, {}, false, map[], [], [])

  lemma EmptyInv()
    ensures Inv(EMPTY)
  {
  }

  // No orderly run of a server fails an assert; every connection is erased once and unregistered once, after
  // that, and when no functor is queued every connection ever accepted is live or was unregistered.
  lemma EveryRunSafe(es: seq<Event>)
    requires Orderly(EMPTY, es)
    ensures Run(EMPTY, es).Ok?
    ensures
      var t := Run(EMPTY, es).value;
      && Once(t)
      && (t.establishing + t.removing + t.destroying == {} ==>
        forall c: nat :: 1 <= c < t.nextId ==> (Live(t, c) && c in t.connections) || c in t.removed)
  {
    RunSafe(EMPTY, es);
    var t := Run(EMPTY, es).value;
    forall c: nat | t.establishing + t.removing + t.destroying == {} && 1 <= c < t.nextId
      ensures (Live(t, c) && c in t.connections) || c in t.removed
    {
      Settled(t, c);
    }
  }

  lemma Settled(t: Server, c: nat)
    requires Inv(t) && 1 <= c < t.nextId && t.establishing + t.removing + t.destroying == {}
    ensures (Live(t, c) && c in t.connections) || c in t.removed
  {
    hide P.Inv;
    assert Accounted(t, c);
    if c in t.state {
      assert Known(t, c);
      assert c !in t.establishing + t.removing + t.destroying;
    }
  }

  // ---------- Closing without interest ----------

  const HANGUP := Revents(false, false, false, true, false, false)

  // After closing, the kernel can still report the connection if and only if it had no interest before:
  // disableAll on an unregistered channel registers it again, with an empty mask.
  lemma CloseSilences(s: Server, c: nat)
    requires Inv(s) && Live(s, c)
    ensures HandleClose(s, c).Ok?
    ensures Reported(HandleClose(s, c).value, c, HANGUP) <==> !HasInterest(s, c)
  {
    hide Once, P.Inv, WithMask;
    ConnFacts(s, c);
    MaskSafe(s.(state := s.state[c := Disconnected]), c, P.NONE);
    var t := HandleClose(s, c).value;
    KernelIs(t, c);
  }

  lemma KernelIs(t: Server, c: nat)
    requires P.Inv(t.poller) && c in t.poller.chans
    ensures t.poller.chans[c].fd in t.poller.kernel <==> t.poller.chans[c].index == P.Added
  {
    assert P.ChannelAgrees(t.poller, c);
  }

  // A closed connection that the kernel can still report.
  ghost predicate Haunted(s: Server, c: nat) {
    && P.Inv(s.poller) && c in s.state && s.state[c] == Disconnected && c !in s.active
    && c in s.poller.chans && s.poller.chans[c].index == P.Added
    && (forall d :: d in s.active ==> Live(s, d) && d in s.poller.chans)
    && (s.active != map[] ==> s.dispatching)
  }

  lemma ClosedHaunts(s: Server, c: nat)
    requires Inv(s) && Live(s, c) && !HasInterest(s, c) && c !in s.active
    ensures HandleClose(s, c).Ok? && Haunted(HandleClose(s, c).value, c)
    ensures c in HandleClose(s, c).value.poller.chans && HandleClose(s, c).value.poller.chans[c].mask == P.NONE
  {
    hide Once, P.Inv, WithMask;
    ConnFacts(s, c);
    MaskSafe(s.(state := s.state[c := Disconnected]), c, P.NONE);
    forall d | d in s.active ensures d in s.poller.chans {
      assert Live(s, d);
    }
  }

  // An invariant server is not haunted.
  lemma NotHaunted(s: Server, c: nat)
    requires Inv(s)
    ensures !Haunted(s, c)
  {
    hide Once, P.Inv;
    assert Known(s, c) ==> ConnInv(s, c);
  }

  // Giving a haunted server's channel of a live connection a mask.
  lemma HauntedMask(s: Server, c: nat, d: nat, mask: P.Mask)
    requires Haunted(s, c) && Live(s, d) && d in s.poller.chans
    ensures WithMask(s, d, mask).Ok? && Haunted(WithMask(s, d, mask).value, c)
    ensures
      var t := WithMask(s, d, mask).value;
      t.state == s.state && t.active == s.active && t.dispatching == s.dispatching && t.poller.chans[d].mask == mask
  {
    hide P.Inv, WithMask;
    MaskSafe(s, d, mask);
  }

  // Handling the event of a live connection with interest, when the callbacks do no more than they must.
  lemma HauntedHandle(s: Server, c: nat, d: nat)
    requires Haunted(s, c) && d in s.active && HasInterest(s, d)
    ensures
      var e := Handle(d, false, Keep, false);
      && Admissible(s, e) && Sound(s, e) && Step(s, e).Ok?
      && Haunted(Step(s, e).value, c) && Step(s, e).value.active == s.active - {d}
  {
    hide P.Inv, WithMask;
    var r := s.active[d];
    var s0 := s.(active := s.active - {d});
    if r.hup && !r.input {
      MaskSafe(s0.(state := s0.state[d := Disconnected]), d, P.NONE);
    }
  }

  lemma {:induction false} OrderlyConcat(s: Server, es: seq<Event>, fs: seq<Event>)
    requires Orderly(s, es) && Run(s, es).Ok? && Orderly(Run(s, es).value, fs)
    ensures Orderly(s, es + fs) && Run(s, es + fs) == Run(Run(s, es).value, fs)
    decreases |es|
  {
    hide Step, Admissible, Sound;
    if es == [] {
      assert es + fs == fs;
    } else {
      assert (es + fs)[1..] == es[1..] + fs;
      OrderlyConcat(Step(s, es[0]).value, es[1..], fs);
    }
  }

  lemma OrderlyOne(s: Server, e: Event)
    requires Admissible(s, e) && Sound(s, e)
    ensures Orderly(s, [e]) && Run(s, [e]) == Step(s, e)
  {
    hide Step, Admissible, Sound;
    assert [e][1..] == [];
  }

  // The present dispatch can be brought to its end.
  lemma {:induction false} EndsDispatch(s: Server, c: nat) returns (es: seq<Event>)
    requires Haunted(s, c)
    ensures Orderly(s, es) && Run(s, es).Ok?
    ensures Haunted(Run(s, es).value, c) && !Run(s, es).value.dispatching && Run(s, es).value.active == map[]
    decreases |s.active|
  {
    hide P.Inv, WithMask, HandleEvent, HandleClose, Orderly, Run;
    if s.active == map[] {
      EndsIdle(s, c);
      es := if s.dispatching then [EndDispatch] else [];
    } else {
      var d :| d in s.active;
      var first := SetInterest(d, P.Mask(true, false));
      HauntedMask(s, c, d, P.Mask(true, false));
      OrderlyOne(s, first);
      var s1 := Step(s, first).value;
      HauntedHandle(s1, c, d);
      var second := Handle(d, false, Keep, false);
      OrderlyOne(s1, second);
      var s2 := Step(s1, second).value;
      OrderlyConcat(s, [first], [second]);
      Smaller(s.active, d);
      var rest := EndsDispatch(s2, c);
      OrderlyConcat(s, [first] + [second], rest);
      es := [first] + [second] + rest;
    }
  }

  lemma Smaller(m: map<nat, Revents>, d: nat)
    requires d in m
    ensures |m - {d}| < |m|
  {
    assert (m - {d}).Keys == m.Keys - {d};
    assert |m.Keys - {d}| < |m.Keys|;
  }

  lemma EndsIdle(s: Server, c: nat)
    requires Haunted(s, c) && s.active == map[]
    ensures
      var es := if s.dispatching then [EndDispatch] else [];
      && Orderly(s, es) && Run(s, es) == Ok(s.(dispatching := false))
      && Haunted(s.(dispatching := false), c)
  {
    hide P.Inv;
    if s.dispatching {
      OrderlyOne(s, EndDispatch);
    }
  }

  // A hang-up of the closed connection is reported, and the assert in handleClose fails.
  lemma HangupFails(s: Server, c: nat)
    requires Haunted(s, c) && !s.dispatching && s.active == map[]
    ensures
      var es := [BeginDispatch(map[c := HANGUP]), Handle(c, false, Keep, false)];
      Orderly(s, es) && Run(s, es).Crash?
  {
    hide P.SetMask;
    var es := [BeginDispatch(map[c := HANGUP]), Handle(c, false, Keep, false)];
    assert es[1..] == [Handle(c, false, Keep, false)];
    KernelIs(s, c);
    var t := Step(s, es[0]).value;
    assert t.active == map[c := HANGUP] && t.state[c] == Disconnected;
    assert Step(t, es[1]).Crash?;
    assert Orderly(t, es[1..]) && Run(t, es[1..]).Crash?;
  }

  // A haunted server has an orderly run in which an assert fails.
  lemma HauntedFails(s: Server, c: nat)
    requires Haunted(s, c)
    ensures !SafeForever(s)
  {
    hide Haunted, Orderly, Run;
    var es := EndsDispatch(s, c);
    var t := Run(s, es).value;
    HangupFails(t, c);
    var fs := [BeginDispatch(map[c := HANGUP]), Handle(c, false, Keep, false)];
    OrderlyConcat(s, es, fs);
  }

  // No orderly run from here fails an assert.
  ghost predicate SafeForever(s: Server) {
    forall es :: Orderly(s, es) ==> Run(s, es).Ok?
  }

  lemma InvSafeForever(s: Server)
    requires Inv(s)
    ensures SafeForever(s)
  {
    hide Inv, Orderly, Run;
    forall es | Orderly(s, es) ensures Run(s, es).Ok? {
      RunSafe(s, es);
    }
  }

  // Closing a connection, in or out of a dispatch, is safe in all that may follow exactly when the connection still
  // has interest.
  lemma CloseExact(s: Server, c: nat)
    requires Inv(s) && Live(s, c) && c !in s.active
    ensures HandleClose(s, c).Ok?
    ensures SafeForever(HandleClose(s, c).value) <==> HasInterest(s, c)
  {
    hide Inv, SafeForever, Haunted, HandleClose;
    if HasInterest(s, c) {
      CloseSafe(s, c);
      InvSafeForever(HandleClose(s, c).value);
    } else {
      ClosedHaunts(s, c);
      HauntedFails(HandleClose(s, c).value, c);
    }
  }

  // An event that is not sound fails an assert at once or leaves a closed connection that can be reported.
  lemma UnsoundHaunts(s: Server, e: Event)
    requires Inv(s) && Admissible(s, e) && !Sound(s, e)
    ensures e.RunForceClose? || e.Handle?
    ensures Step(s, e).Ok? ==> Haunted(Step(s, e).value, e.conn)
  {
    hide Inv, Haunted, HandleClose, HandleEvent;
    if e.RunForceClose? {
      NoneActive(s);
      ClosedHaunts(s, e.conn);
    } else {
      assert e.Handle?;
      HandleHaunts(s, e.conn, e.eof, e.change, e.drained);
    }
  }

  lemma HandleHaunts(s: Server, c: nat, eof: bool, change: Change, drained: bool)
    requires Inv(s) && Admissible(s, Handle(c, eof, change, drained)) && !Sound(s, Handle(c, eof, change, drained))
    ensures
      var t := Step(s, Handle(c, eof, change, drained));
      t.Ok? ==> Haunted(t.value, c)
  {
    hide Inv, P.Inv, HandleClose, WithMask, Haunted;
    var r := s.active[c];
    var s0 := s.(active := s.active - {c});
    TakeActive(s, c);
    LiveAfter(s, s0, c);
    if r.hup && !r.input {
      ClosedTwice(s0, c, r, eof, change, drained);
    } else {
      ClosedHaunts(s0, c);
      AfterClose(HandleClose(s0, c).value, c, drained);
    }
  }

  // A closed connection without interest is left alone by the write callback.
  lemma AfterClose(s: Server, c: nat, drained: bool)
    requires c in s.poller.chans && !s.poller.chans[c].mask.write
    ensures HandleWrite(s, c, drained) == Ok(s)
  {
  }

  // The close callback has run; then perhaps the read callback.
  lemma ClosedTwice(s: Server, c: nat, r: Revents, eof: bool, change: Change, drained: bool)
    requires Inv(s) && Live(s, c) && c !in s.active && r.hup && !r.input
    requires change == SetTo(P.NONE) ==> HasInterest(s, c)
    requires ClosesThenReads(r) && change.SetTo? ==> !change.mask.write
    requires HasInterest(s, c) ==> ClosesThenReads(r) && (eof || change != Keep)
    ensures
      var t := HandleEvent(s, c, r, eof, change, drained);
      t.Ok? ==> Haunted(t.value, c)
  {
    hide Once, P.Inv, WithMask;
    ConnFacts(s, c);
    MaskSafe(s.(state := s.state[c := Disconnected]), c, P.NONE);
    var t := HandleClose(s, c).value;
    forall d | d in s.active ensures d in s.poller.chans {
      assert Live(s, d);
    }
    if ClosesThenReads(r) && change.SetTo? {
      MaskSafe(t, c, change.mask);
    }
  }

  // Exactly the sound events fail no assert and keep the invariant.
  lemma InvExact(s: Server, e: Event)
    requires Inv(s) && Admissible(s, e)
    ensures Step(s, e).Ok? && Inv(Step(s, e).value) <==> Sound(s, e)
  {
    hide Inv, Haunted, Step, Sound, Admissible;
    if Sound(s, e) {
      StepSafe(s, e);
    } else {
      UnsoundHaunts(s, e);
      if Step(s, e).Ok? && Inv(Step(s, e).value) {
        NotHaunted(Step(s, e).value, e.conn);
      }
    }
  }

  // Exactly the sound events leave a server that is safe in all that may follow.
  lemma StepExact(s: Server, e: Event)
    requires Inv(s) && Admissible(s, e)
    ensures Step(s, e).Ok? && SafeForever(Step(s, e).value) <==> Sound(s, e)
  {
    hide Inv, SafeForever, Haunted, Step, Sound, Admissible;
    if Sound(s, e) {
      StepSafe(s, e);
      InvSafeForever(Step(s, e).value);
    } else {
      UnsoundHaunts(s, e);
      if Step(s, e).Ok? {
        HauntedFails(Step(s, e).value, e.conn);
      }
    }
  }

  // The failing case is reached: reading is stopped with nothing to write, then the connection is force-closed,
  // and a run follows in which an assert fails.
  lemma StoppedReadingFails()
    ensures
      var opening := [Accept(7), RunEstablish(1), SetInterest(1, P.NONE)];
      && Orderly(EMPTY, opening) && Run(EMPTY, opening).Ok?
      && var s := Run(EMPTY, opening).value;
        && Admissible(s, RunForceClose(1)) && Step(s, RunForceClose(1)).Ok?
        && !SafeForever(Step(s, RunForceClose(1)).value)
  {
    hide Inv, Orderly, Run, SafeForever, HandleClose;
    var s := StoppedReading();
    NoneActive(s);
    CloseExact(s, 1);
  }

  lemma StoppedReading() returns (s: Server)
    ensures
      var opening := [Accept(7), RunEstablish(1), SetInterest(1, P.NONE)];
      Orderly(EMPTY, opening) && Run(EMPTY, opening) == Ok(s)
    ensures Inv(s) && Live(s, 1) && !HasInterest(s, 1) && !s.dispatching
  {
    hide Inv, P.Inv;
    var opening := [Accept(7), RunEstablish(1), SetInterest(1, P.NONE)];
    var a := Step(EMPTY, opening[0]).value;
    var b := Step(a, opening[1]).value;
    s := Step(b, opening[2]).value;
    assert opening[1..] == [opening[1], opening[2]] && opening[1..][1..] == [opening[2]];
    assert opening[1..][1..][1..] == [];
    assert Step(b, opening[2]) == Ok(s) && Orderly(s, []) && Run(s, []) == Ok(s);
    assert Orderly(b, opening[1..][1..]) && Run(b, opening[1..][1..]) == Ok(s);
    assert Orderly(a, opening[1..]) && Run(a, opening[1..]) == Ok(s);
    EmptyInv();
    RunSafe(EMPTY, opening);
  }

  // ---------- What each event does ----------

  const INPUT := Revents(true, false, false, false, false, false)
  const OUTPUT := Revents(false, false, false, false, false, true)

  // What the kernel can report about a live connection is what its mask asks for.
  lemma ReportedExact(s: Server, c: nat)
    requires Inv(s) && Live(s, c)
    ensures c in s.poller.chans
    ensures Reported(s, c, INPUT) <==> s.poller.chans[c].mask.read
    ensures Reported(s, c, OUTPUT) <==> s.poller.chans[c].mask.write
  {
    hide Once;
    ConnFacts(s, c);
    assert P.ChannelAgrees(s.poller, c);
  }

  // A new connection is connected, and reads: the kernel can report its input, and nothing to write.
  lemma EstablishReads(s: Server, c: nat)
    requires Inv(s) && c in s.establishing
    ensures Step(s, RunEstablish(c)).Ok?
    ensures
      var t := Step(s, RunEstablish(c)).value;
      && c in t.state && t.state[c] == Connected && c in t.connections && c !in t.establishing
      && Reported(t, c, INPUT) && !Reported(t, c, OUTPUT)
  {
    hide Inv, P.Inv, Once, WithMask, Reported;
    ConnFacts(s, c);
    MaskSafe(s.(state := s.state[c := Connected], establishing := s.establishing - {c}), c, P.Mask(true, false));
    EstablishSafe(s, c);
    ReportedExact(Step(s, RunEstablish(c)).value, c);
  }

  // The connection an event is about.
  predicate Concerns(s: Server, e: Event, c: nat) {
    match e
    case Accept(_) => c == s.nextId
    case BeginDispatch(_) => false
    case EndDispatch => false
    case _ => e.conn == c
  }

  // An event leaves every other connection, its channel and its place in the server as they are.
  lemma StepOthers(s: Server, e: Event, d: nat)
    requires Inv(s) && Admissible(s, e) && Sound(s, e) && d in s.state && !Concerns(s, e, d)
    ensures Step(s, e).Ok?
    ensures
      var t := Step(s, e).value;
      && d in t.state && t.state[d] == s.state[d]
      && d in s.poller.chans && d in t.poller.chans && t.poller.chans[d] == s.poller.chans[d]
      && (d in t.connections <==> d in s.connections)
  {
    hide Inv, P.Inv, Once, HandleEvent, WithMask, Destroyed;
    StepSafe(s, e);
    ConnFacts(s, d);
    match e
    case RunEstablish(c) =>
      ConnFacts(s, c);
      MaskSafe(s.(state := s.state[c := Connected], establishing := s.establishing - {c}), c, P.Mask(true, false));
    case SetInterest(c, mask) =>
      ConnFacts(s, c);
      MaskSafe(s, c, mask);
    case RunForceClose(c) =>
      if Live(s, c) {
        ConnFacts(s, c);
        MaskSafe(s.(state := s.state[c := Disconnected]), c, P.NONE);
      }
    case Handle(c, eof, change, drained) =>
      TakeActive(s, c);
      ConnFacts(s, c);
      HandleOthers(s.(active := s.active - {c}), c, s.active[c], eof, change, drained, d);
    case RunDestroy(c) =>
      ConnFacts(s, c);
      DestroyedIs(s.(destroying := s.destroying - {c}), c);
    case _ =>
  }

  // Two servers agree on a connection.
  ghost predicate Agree(s: Server, t: Server, d: nat) {
    && d in s.state && d in t.state && t.state[d] == s.state[d]
    && d in s.poller.chans && d in t.poller.chans && t.poller.chans[d] == s.poller.chans[d]
    && (d in t.connections <==> d in s.connections)
  }

  lemma MaskOthers(s: Server, c: nat, mask: P.Mask, d: nat)
    requires P.Inv(s.poller) && c in s.poller.chans && d != c && d in s.state && d in s.poller.chans
    ensures WithMask(s, c, mask).Ok? && Agree(s, WithMask(s, c, mask).value, d)
    ensures P.Inv(WithMask(s, c, mask).value.poller) && c in WithMask(s, c, mask).value.poller.chans
  {
    hide P.Inv, WithMask;
    MaskSafe(s, c, mask);
  }

  lemma HandleOthers(s: Server, c: nat, r: Revents, eof: bool, change: Change, drained: bool, d: nat)
    requires P.Inv(s.poller) && c in s.poller.chans && d != c && d in s.state && d in s.poller.chans
    ensures HandleEvent(s, c, r, eof, change, drained).Ok? ==>
      Agree(s, HandleEvent(s, c, r, eof, change, drained).value, d)
  {
    hide P.Inv, WithMask, HandleClose, HandleRead, HandleWrite;
    var s1 := s;
    if r.hup && !r.input {
      CloseOthers(s, c, d);
      if HandleClose(s, c).Ok? {
        s1 := HandleClose(s, c).value;
      }
    }
    if r.hup && !r.input ==> HandleClose(s, c).Ok? {
      var s2 := s1;
      if r.input || r.pri || r.rdhup {
        ReadOthers(s1, c, eof, change, d);
        if HandleRead(s1, c, eof, change).Ok? {
          s2 := HandleRead(s1, c, eof, change).value;
        }
      }
      WriteOthers(s2, c, drained, d);
    }
  }

  lemma CloseOthers(s: Server, c: nat, d: nat)
    requires P.Inv(s.poller) && c in s.poller.chans && d != c && d in s.state && d in s.poller.chans
    ensures HandleClose(s, c).Ok? ==>
      var t := HandleClose(s, c).value;
      Agree(s, t, d) && P.Inv(t.poller) && c in t.poller.chans
  {
    hide P.Inv, WithMask;
    if Live(s, c) {
      MaskOthers(s.(state := s.state[c := Disconnected]), c, P.NONE, d);
    }
  }

  lemma ReadOthers(s: Server, c: nat, eof: bool, change: Change, d: nat)
    requires P.Inv(s.poller) && c in s.poller.chans && d != c && d in s.state && d in s.poller.chans
    ensures HandleRead(s, c, eof, change).Ok? ==>
      var t := HandleRead(s, c, eof, change).value;
      Agree(s, t, d) && P.Inv(t.poller) && c in t.poller.chans
  {
    hide P.Inv, WithMask, HandleClose;
    if eof {
      CloseOthers(s, c, d);
    } else if change.SetTo? {
      MaskOthers(s, c, change.mask, d);
    }
  }

  lemma WriteOthers(s: Server, c: nat, drained: bool, d: nat)
    requires P.Inv(s.poller) && c in s.poller.chans && d != c && d in s.state && d in s.poller.chans
    ensures HandleWrite(s, c, drained).Ok? && Agree(s, HandleWrite(s, c, drained).value, d)
  {
    hide P.Inv, WithMask;
    MaskOthers(s, c, s.poller.chans[c].mask.(write := false), d);
  }

  // ---------- A connection keeps reading ----------

  ghost predicate Reading(s: Server, c: nat) {
    Live(s, c) && c in s.poller.chans && s.poller.chans[c].mask.read
  }

  // Event e neither closes c nor takes its read interest away.
  ghost predicate LeavesReading(s: Server, e: Event, c: nat) {
    && !Closes(s, e, c)
    && (e.SetInterest? && e.conn == c ==> e.mask.read)
    && (e.Handle? && e.conn == c && e.change.SetTo? ==> e.change.mask.read)
  }

  lemma ReadingStep(s: Server, e: Event, c: nat)
    requires Inv(s) && Admissible(s, e) && Sound(s, e) && Reading(s, c) && LeavesReading(s, e, c)
    ensures Step(s, e).Ok? && Inv(Step(s, e).value) && Reading(Step(s, e).value, c)
  {
    hide Inv, P.Inv, Once, WithMask, HandleEvent, Destroyed, HandleClose;
    StepSafe(s, e);
    ConnFacts(s, c);
    if !Concerns(s, e, c) {
      StepOthers(s, e, c);
    } else {
      match e
      case Accept(_) => NextIdFree(s);
      case SetInterest(_, mask) => MaskSafe(s, c, mask);
      case Handle(_, eof, change, drained) => ReadingHandle(s, c, eof, change, drained);
      case _ =>
    }
  }

  // Handling its events, draining its output included, leaves reading on.
  lemma ReadingHandle(s: Server, c: nat, eof: bool, change: Change, drained: bool)
    requires Inv(s) && Admissible(s, Handle(c, eof, change, drained)) && Reading(s, c)
    requires LeavesReading(s, Handle(c, eof, change, drained), c)
    ensures Step(s, Handle(c, eof, change, drained)).Ok? && Reading(Step(s, Handle(c, eof, change, drained)).value, c)
  {
    hide Inv, P.Inv, Once, WithMask, HandleClose;
    ConnFacts(s, c);
    var s0 := s.(active := s.active - {c});
    var r := s.active[c];
    var s1 := s0;
    if (r.input || r.pri || r.rdhup) && change.SetTo? {
      MaskSafe(s0, c, change.mask);
      s1 := WithMask(s0, c, change.mask).value;
    }
    MaskSafe(s1, c, s1.poller.chans[c].mask.(write := false));
  }

  // Draining the output ends the interest in writing, and in nothing else.
  lemma DrainStopsWriting(s: Server, c: nat, eof: bool)
    requires Inv(s) && Admissible(s, Handle(c, eof, Keep, true)) && s.active[c].output
    requires !Closes(s, Handle(c, eof, Keep, true), c)
    ensures Step(s, Handle(c, eof, Keep, true)).Ok?
    ensures
      var t := Step(s, Handle(c, eof, Keep, true)).value;
      && c in t.poller.chans && !Reported(t, c, OUTPUT)
      && (Reported(t, c, INPUT) <==> Reported(s, c, INPUT))
  {
    hide Inv, P.Inv, Once, WithMask, HandleClose, Reported;
    StepSafe(s, Handle(c, eof, Keep, true));
    ActiveLive(s, c);
    ConnFacts(s, c);
    ReportedExact(s, c);
    MaskSafe(s.(active := s.active - {c}), c, s.poller.chans[c].mask.(write := false));
    ReportedExact(Step(s, Handle(c, eof, Keep, true)).value, c);
  }

  lemma ActiveLive(s: Server, c: nat)
    requires Inv(s) && c in s.active
    ensures Live(s, c)
  {
  }

  ghost predicate KeepsReading(s: Server, es: seq<Event>, c: nat)
    decreases |es|
  {
    es == [] ||
    (LeavesReading(s, es[0], c) && (Step(s, es[0]).Ok? ==> KeepsReading(Step(s, es[0]).value, es[1..], c)))
  }

  // In every orderly run that neither closes it nor stops its reading, a connection that reads keeps reading: the
  // kernel can report its input at the end.
  lemma {:induction false} ReadingRun(s: Server, es: seq<Event>, c: nat)
    requires Inv(s) && Orderly(s, es) && Reading(s, c) && KeepsReading(s, es, c)
    ensures Run(s, es).Ok? && Reading(Run(s, es).value, c) && Reported(Run(s, es).value, c, INPUT)
    decreases |es|
  {
    hide Inv, Step, Admissible, Sound, LeavesReading, Reported;
    if es == [] {
      ReportedExact(s, c);
    } else {
      ReadingStep(s, es[0], c);
      ReadingRun(Step(s, es[0]).value, es[1..], c);
    }
  }

  // A connection reads from the moment it is established.
  lemma EstablishedReads(s: Server, c: nat, es: seq<Event>)
    requires Inv(s) && c in s.establishing && Step(s, RunEstablish(c)).Ok?
    requires Orderly(Step(s, RunEstablish(c)).value, es) && KeepsReading(Step(s, RunEstablish(c)).value, es, c)
    ensures Run(Step(s, RunEstablish(c)).value, es).Ok?
    ensures Reported(Run(Step(s, RunEstablish(c)).value, es).value, c, INPUT)
  {
    hide Inv, Step, Reported, Orderly, KeepsReading, Run;
    EstablishSafe(s, c);
    EstablishReads(s, c);
    ReportedExact(Step(s, RunEstablish(c)).value, c);
    ReadingRun(Step(s, RunEstablish(c)).value, es, c);
  }

  // Asking for interest gets exactly that: what the kernel can report afterwards is what was asked for.
  lemma InterestExact(s: Server, c: nat, mask: P.Mask)
    requires Inv(s) && Admissible(s, SetInterest(c, mask))
    ensures Step(s, SetInterest(c, mask)).Ok?
    ensures
      var t := Step(s, SetInterest(c, mask)).value;
      && c in t.state && t.state[c] == s.state[c]
      && (Reported(t, c, INPUT) <==> mask.read) && (Reported(t, c, OUTPUT) <==> mask.write)
  {
    hide Inv, P.Inv, Once, WithMask, Reported;
    StepSafe(s, SetInterest(c, mask));
    ConnFacts(s, c);
    MaskSafe(s, c, mask);
    ReportedExact(Step(s, SetInterest(c, mask)).value, c);
  }

  // ---------- A closed connection goes ----------

  // A sound event that closes a connection takes it out of the kernel and asks the server to remove it.
  lemma CloseHappens(s: Server, e: Event, c: nat)
    requires Inv(s) && Admissible(s, e) && Sound(s, e) && Closes(s, e, c) && Live(s, c)
    ensures Step(s, e).Ok?
    ensures
      var t := Step(s, e).value;
      && c in t.state && t.state[c] == Disconnected && c in t.removing
      && forall r :: !Reported(t, c, r)
  {
    hide Inv, P.Inv, Once, WithMask, HandleClose, Reported;
    StepSafe(s, e);
    if e.RunForceClose? {
      NoneActive(s);
      CloseSafe(s, c);
      CloseRemoves(s, c);
    } else {
      var s0 := s.(active := s.active - {c});
      TakeActive(s, c);
      LiveAfter(s, s0, c);
      CloseSafe(s0, c);
      CloseRemoves(s0, c);
    }
    forall r ensures !Reported(Step(s, e).value, c, r) {
      ClosedSilent(Step(s, e).value, c, r);
    }
  }

  lemma CloseRemoves(s: Server, c: nat)
    requires HandleClose(s, c).Ok?
    ensures c in HandleClose(s, c).value.removing
  {
    hide WithMask;
  }

  lemma ClosedSilent(s: Server, c: nat, r: Revents)
    requires Inv(s) && c in s.state && s.state[c] == Disconnected
    ensures !Reported(s, c, r)
  {
    if Reported(s, c, r) {
      ReportedLive(s, c, r);
    }
  }

  // Its two queued functors then remove it: erased from the server, its channel unregistered, and gone.
  lemma ClosedGoes(s: Server, c: nat)
    requires Inv(s) && c in s.removing && !s.dispatching
    ensures
      var es := [RunRemove(c), RunDestroy(c)];
      && Orderly(s, es) && Run(s, es).Ok?
      && var t := Run(s, es).value;
        Inv(t) && c !in t.connections && c !in t.state && c !in t.poller.chans && c in t.erased && c in t.removed
  {
    hide Inv, Once, P.Inv, Destroyed, Orderly, Run;
    ConnFacts(s, c);
    RemoveSafe(s, c);
    OrderlyOne(s, RunRemove(c));
    var t := Step(s, RunRemove(c)).value;
    ConnFacts(t, c);
    DestroySafe(t, c);
    DestroyedIs(t.(destroying := t.destroying - {c}), c);
    OrderlyOne(t, RunDestroy(c));
    OrderlyConcat(s, [RunRemove(c)], [RunDestroy(c)]);
    assert [RunRemove(c)] + [RunDestroy(c)] == [RunRemove(c), RunDestroy(c)];
  }

  // ---------- How a connection's state moves ----------

  function Rank(x: State): nat {
    match x
    case Connecting => 0
    case Connected => 1
    case Disconnecting => 2
    case Disconnected => 3
  }

  // A connection's state only moves forward.  It is connected by being established, and disconnecting by being shut
  // down; a live connection is disconnected exactly by the events that close it, and only a disconnected one goes.
  lemma StateMoves(s: Server, e: Event, c: nat)
    requires Inv(s) && Admissible(s, e) && Sound(s, e) && c in s.state
    ensures Step(s, e).Ok?
    ensures
      var t := Step(s, e).value;
      && (c in t.state ==> Rank(s.state[c]) <= Rank(t.state[c]))
      && (Live(s, c) ==> c in t.state && (t.state[c] == Disconnected <==> Closes(s, e, c)))
      && (c !in t.state ==> s.state[c] == Disconnected && e == RunDestroy(c))
      && (s.state[c] == Connecting ==>
        c in t.state && t.state[c] == if e == RunEstablish(c) then Connected else Connecting)
      && (s.state[c] == Connected && !Closes(s, e, c) ==>
        t.state[c] == if e == BeginClosing(c) then Disconnecting else Connected)
  {
    hide Inv, P.Inv, Once, WithMask, HandleEvent, Destroyed, HandleClose;
    StepSafe(s, e);
    ConnFacts(s, c);
    if !Concerns(s, e, c) {
      StepOthers(s, e, c);
    } else if Closes(s, e, c) && Live(s, c) {
      CloseHappens(s, e, c);
    } else {
      match e
      case Accept(_) => NextIdFree(s);
      case RunEstablish(_) => EstablishReads(s, c);
      case SetInterest(_, mask) => MaskSafe(s, c, mask);
      case Handle(_, eof, change, drained) => OpenHandle(s, c, eof, change, drained);
      case RunDestroy(_) => DestroyedIs(s.(destroying := s.destroying - {c}), c);
      case _ =>
    }
  }

  // Handling events that do not close the connection leaves its state as it is.
  lemma OpenHandle(s: Server, c: nat, eof: bool, change: Change, drained: bool)
    requires Inv(s) && Admissible(s, Handle(c, eof, change, drained)) && Live(s, c)
    requires !Closes(s, Handle(c, eof, change, drained), c)
    ensures Step(s, Handle(c, eof, change, drained)).Ok?
    ensures Step(s, Handle(c, eof, change, drained)).value.state == s.state
  {
    hide Inv, P.Inv, Once, WithMask, HandleClose;
    ConnFacts(s, c);
    var s0 := s.(active := s.active - {c});
    var r := s.active[c];
    var s1 := s0;
    if (r.input || r.pri || r.rdhup) && change.SetTo? {
      MaskSafe(s0, c, change.mask);
      s1 := WithMask(s0, c, change.mask).value;
    }
    MaskSafe(s1, c, s1.poller.chans[c].mask.(write := false));
  }
}
