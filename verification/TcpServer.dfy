/**
 The server and its connections as objects: net/tcp_server.cc, the connection's part in its own creation and end
 in net/tcp_connection.cc, and Channel::handleEventWithGuard, on top of the poller object.
 */
module TcpServers {
  import opened ConnectionStates
  import opened Outcomes
  import opened Lifecycle
  import P = Pollers

  class TcpServer {
    const poller: P.EPollPoller
    var state: map<nat, State>
    var connections: set<nat>
    var nextConnId: nat
    var establishing: set<nat>
    var removing: set<nat>
    var destroying: set<nat>
    ghost var dispatching: bool
    ghost var active: map<nat, Revents>
    ghost var erased: seq<nat>
    ghost var removed: seq<nat>

    ghost function Abs(): Server
      reads this, poller
    {
      Server(poller.Abs(), state, connections, nextConnId, establishing, removing, destroying, dispatching, active,
             erased, removed)
    }

    constructor ()
      ensures Abs() == EMPTY && Inv(Abs()) && fresh(poller)
    {
      poller := new P.EPollPoller();
      state, connections, nextConnId := map[], {}, 1;
      establishing, removing, destroying := {}, {}, {};
      dispatching, active, erased, removed := false, map[], [], [];
      new;
      EmptyInv();
    }

    // newConnection: the connection and its channel come into being, connectEstablished is queued.
    method NewConnection(fd: int) returns (c: nat)
      requires Inv(Abs()) && Admissible(Abs(), Accept(fd))
      modifies this, poller
      ensures c == old(nextConnId) && Step(old(Abs()), Accept(fd)) == Ok(Abs()) && Inv(Abs())
    {
      hide Inv;
      AcceptSafe(Abs(), fd);
      c := nextConnId;
      nextConnId := nextConnId + 1;
      state := state[c := Connecting];
      poller.chans := poller.chans[c := P.Channel(fd, P.NONE, P.New)];
      connections := connections + {c};
      establishing := establishing + {c};
    }

    // connectEstablished.
    method ConnectEstablished(c: nat)
      requires Inv(Abs()) && c in establishing
      modifies this, poller
      ensures Step(old(Abs()), RunEstablish(c)) == Ok(Abs()) && Inv(Abs())
      ensures c in state && state[c] == Connected && Reported(Abs(), c, INPUT) && !Reported(Abs(), c, OUTPUT)
    {
      hide Inv, P.Inv, P.SetMask, Reported;
      EstablishSafe(Abs(), c);
      EstablishReads(Abs(), c);
      ConnFacts(Abs(), c);
      establishing := establishing - {c};
      state := state[c := Connected];
      poller.UpdateChannel(c, P.Mask(true, false));
    }

    // handleClose, with the close callback's request to remove the connection.
    method OnClose(c: nat)
      requires P.Inv(poller.Abs()) && Live(Abs(), c) && c in poller.chans
      modifies this, poller
      ensures HandleClose(old(Abs()), c) == Ok(Abs())
      ensures P.Inv(poller.Abs()) && c in poller.chans && poller.chans[c].mask == P.NONE
    {
      hide P.Inv, P.SetMask;
      MaskSafe(Abs(), c, P.NONE);
      state := state[c := Disconnected];
      poller.UpdateChannel(c, P.NONE);
      removing := removing + {c};
    }

    // forceCloseInLoop.
    method ForceCloseInLoop(c: nat)
      requires Inv(Abs()) && !dispatching
      modifies this, poller
      ensures Step(old(Abs()), RunForceClose(c)) == Ok(Abs())
      ensures Inv(Abs()) <==> old(Sound(Abs(), RunForceClose(c)))
    {
      hide Inv, HandleClose, P.Inv, Sound;
      InvExact(Abs(), RunForceClose(c));
      if c in state && (state[c] == Connected || state[c] == Disconnecting) {
        ConnFacts(Abs(), c);
        OnClose(c);
      }
    }

    // handleWrite, as far as it changes the interest mask.
    method OnWritable(c: nat, drained: bool)
      requires P.Inv(poller.Abs()) && c in poller.chans
      modifies poller
      ensures HandleWrite(old(Abs()), c, drained) == Ok(Abs()) && P.Inv(poller.Abs())
    {
      hide P.Inv, P.SetMask;
      if poller.chans[c].mask.write && drained {
        poller.UpdateChannel(c, poller.chans[c].mask.(write := false));
      }
    }

    // handleRead: the end of the stream, or data for the message callback, which may change the interest.
    method OnReadable(c: nat, eof: bool, change: Change)
      requires P.Inv(poller.Abs()) && c in poller.chans && (eof ==> Live(Abs(), c))
      modifies this, poller
      ensures HandleRead(old(Abs()), c, eof, change) == Ok(Abs()) && P.Inv(poller.Abs()) && c in poller.chans
    {
      hide P.Inv, P.SetMask;
      if eof {
        OnClose(c);
      } else if change.SetTo? {
        MaskSafe(Abs(), c, change.mask);
        poller.UpdateChannel(c, change.mask);
      }
    }

    // handleEventWithGuard of a reported channel: close, read and write callbacks.  The assert in handleClose demands
    // that it does not run twice.
    method HandleEvent(c: nat, revents: Revents, eof: bool, change: Change, drained: bool)
      requires Inv(Abs()) && Admissible(Abs(), Handle(c, eof, change, drained)) && active[c] == revents
      requires !(ClosesThenReads(revents) && eof)
      modifies this, poller
      ensures Step(old(Abs()), Handle(c, eof, change, drained)) == Ok(Abs())
      ensures Inv(Abs()) <==> old(Sound(Abs(), Handle(c, eof, change, drained)))
    {
      hide Inv, HandleClose, HandleRead, HandleWrite, P.Inv, Sound;
      ghost var s := Abs();
      InvExact(s, Handle(c, eof, change, drained));
      TakeActive(s, c);
      LiveAfter(s, s.(active := s.active - {c}), c);
      ConnFacts(s, c);
      active := active - {c};
      if revents.hup && !revents.input {
        OnClose(c);
      }
      if revents.input || revents.pri || revents.rdhup {
        OnReadable(c, eof, change);
      }
      if revents.output {
        OnWritable(c, drained);
      }
    }

    // removeConnectionInLoop.
    method RemoveConnectionInLoop(c: nat)
      requires Inv(Abs()) && c in removing
      modifies this
      ensures Step(old(Abs()), RunRemove(c)) == Ok(Abs()) && Inv(Abs())
      ensures c in old(connections) && c !in connections
    {
      hide Inv;
      RemoveSafe(Abs(), c);
      ConnFacts(Abs(), c);
      removing := removing - {c};
      connections := connections - {c};
      erased := erased + [c];
      destroying := destroying + {c};
    }

    // channel_->remove(), and then the last reference to the connection goes.
    method Unregister(c: nat)
      requires P.Inv(poller.Abs()) && c in state && c in poller.chans
      requires poller.chans[c].index != P.New && poller.chans[c].mask == P.NONE
      modifies this, poller
      ensures P.Inv(poller.Abs()) && c !in poller.chans
      ensures P.Remove(old(poller.Abs()), c).Ok?
      ensures
        var p := P.Remove(old(poller.Abs()), c).value;
        Abs() == old(Abs()).(
          poller := p.(chans := p.chans - {c}), state := old(state) - {c}, removed := old(removed) + [c])
    {
      hide P.Inv, P.Remove;
      P.RemoveSafe(poller.Abs(), c);
      P.DropSafe(P.Remove(poller.Abs(), c).value, c);
      poller.RemoveChannel(c);
      poller.chans := poller.chans - {c};
      state := state - {c};
      removed := removed + [c];
    }

    // connectDestroyed, after which the connection and its channel are gone; the branch for a connection still
    // connected is the server's own end.
    method ConnectDestroyed(c: nat)
      requires P.Inv(poller.Abs()) && Destroyable(Abs(), c)
      modifies this, poller
      ensures Step(old(Abs()), RunDestroy(c)) == Ok(Abs()) && P.Inv(poller.Abs())
      ensures c !in state && c !in poller.chans
      ensures old(Inv(Abs()) && Admissible(Abs(), RunDestroy(c))) ==> Inv(Abs())
    {
      hide Inv, P.Inv, P.Remove, P.SetMask;
      ghost var s := Abs();
      DestroyedIs(s.(destroying := s.destroying - {c}), c);
      destroying := destroying - {c};
      if state[c] == Connected {
        MaskSafe(Abs(), c, P.NONE);
        state := state[c := Disconnected];
        poller.UpdateChannel(c, P.NONE);
      }
      Unregister(c);
      if Inv(s) && Admissible(s, RunDestroy(c)) {
        DestroySafe(s, c);
      }
    }
  }
}
