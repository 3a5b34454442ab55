/**
 Registration of channels: net/epoller.cc and the event mask of net/channel.cc.

 Three views of a channel must agree: its index, the poller's map, and the kernel's interest set.  A failed
 assert or a refused epoll_ctl is a `Crash`.
 */
module Pollers {
  import opened Outcomes

  datatype Mask = Mask(read: bool, write: bool)
  datatype Index = New | Added | Deleted
  datatype Channel = Channel(fd: int, mask: Mask, index: Index)
  datatype Operation = CtlAdd | CtlMod | CtlDel

  const NONE := Mask(false, false)

  // `channels` is the poller's map from descriptors; `kernel` what epoll holds: channel and mask.
  datatype Poller = Poller(chans: map<nat, Channel>, channels: map<int, nat>, kernel: map<int, (nat, Mask)>)

  // EPollPoller::update: epoll_ctl fails on a second ADD, and on MOD or DEL of an unknown descriptor.
  function Control(p: Poller, op: Operation, c: nat): Outcome<Poller>
    requires c in p.chans
  {
    var ch := p.chans[c];
    match op
    case CtlAdd => if ch.fd in p.kernel then Crash else Ok(p.(kernel := p.kernel[ch.fd := (c, ch.mask)]))
    case CtlMod => if ch.fd !in p.kernel then Crash else Ok(p.(kernel := p.kernel[ch.fd := (c, ch.mask)]))
    case CtlDel => if ch.fd !in p.kernel then Crash else Ok(p.(kernel := p.kernel - {ch.fd}))
  }

  function SetIndex(p: Poller, c: nat, index: Index): Poller
    requires c in p.chans
  {
    p.(chans := p.chans[c := p.chans[c].(index := index)])
  }

  predicate Mapped(p: Poller, c: nat)
    requires c in p.chans
  {
    p.chans[c].fd in p.channels && p.channels[p.chans[c].fd] == c
  }

  // updateChannel.
  function Update(p: Poller, c: nat): Outcome<Poller>
    requires c in p.chans
  {
    var ch := p.chans[c];
    if ch.index == New then
      if ch.fd in p.channels then Crash
      else Control(SetIndex(p.(channels := p.channels[ch.fd := c]), c, Added), CtlAdd, c)
    else if !Mapped(p, c) then Crash
    else if ch.index == Deleted then Control(SetIndex(p, c, Added), CtlAdd, c)
    else if ch.mask == NONE then
      match Control(p, CtlDel, c)
      case Crash => Crash
      case Ok(q) => if c in q.chans then Ok(SetIndex(q, c, Deleted)) else Crash
    else Control(p, CtlMod, c)
  }

  // Channel::enableReading and its siblings: change the mask, then update.
  function SetMask(p: Poller, c: nat, mask: Mask): Outcome<Poller>
    requires c in p.chans
  {
    Update(p.(chans := p.chans[c := p.chans[c].(mask := mask)]), c)
  }

  // Channel::remove and removeChannel.
  function Remove(p: Poller, c: nat): Outcome<Poller>
    requires c in p.chans
  {
    var ch := p.chans[c];
    if ch.mask != NONE || !Mapped(p, c) || ch.index == New then Crash else
    var q := p.(channels := p.channels - {ch.fd});
    match (if ch.index == Added then Control(q, CtlDel, c) else Ok(q))
    case Crash => Crash
    case Ok(r) => if c in r.chans then Ok(SetIndex(r, c, New)) else Crash
  }

  // ---------- The three views agree ----------

  ghost predicate ChannelAgrees(p: Poller, c: nat)
    requires c in p.chans
  {
    var ch := p.chans[c];
    match ch.index
    case New => ch.fd !in p.channels && ch.fd !in p.kernel
    case Added => Mapped(p, c) && ch.fd in p.kernel && p.kernel[ch.fd] == (c, ch.mask)
    case Deleted => Mapped(p, c) && ch.fd !in p.kernel
  }

  ghost predicate Inv(p: Poller) {
    && (forall c, d :: c in p.chans && d in p.chans && c != d ==> p.chans[c].fd != p.chans[d].fd)
    && (forall c :: c in p.chans ==> ChannelAgrees(p, c))
    && (forall fd :: fd in p.channels ==> p.channels[fd] in p.chans && p.chans[p.channels[fd]].fd == fd)
    && forall fd :: fd in p.kernel ==> fd in p.channels && p.kernel[fd].0 == p.channels[fd]
  }

  // The index after a mask is set: an added channel left without interest is taken out of the kernel, any
  // other one is put in.
  function IndexAfter(ch: Channel, mask: Mask): Index {
    if ch.index == Added && mask == NONE then Deleted else Added
  }

  ghost function Registered(p: Poller, c: nat, mask: Mask): Poller
    requires c in p.chans
  {
    var ch := p.chans[c];
    var index := IndexAfter(ch, mask);
    Poller(p.chans[c := Channel(ch.fd, mask, index)], p.channels[ch.fd := c],
           if index == Added then p.kernel[ch.fd := (c, mask)] else p.kernel - {ch.fd})
  }

  lemma RegisteredInv(p: Poller, c: nat, mask: Mask)
    requires Inv(p) && c in p.chans
    ensures Inv(Registered(p, c, mask))
  {
    var q := Registered(p, c, mask);
    assert ChannelAgrees(p, c);
    forall d | d in q.chans ensures ChannelAgrees(q, d) {
      assert d != c ==> ChannelAgrees(p, d);
    }
  }

  // No assert fails and no epoll_ctl is refused, whatever mask is set.
  lemma SetMaskSafe(p: Poller, c: nat, mask: Mask)
    requires Inv(p) && c in p.chans
    ensures SetMask(p, c, mask) == Ok(Registered(p, c, mask)) && Inv(Registered(p, c, mask))
  {
    RegisteredInv(p, c, mask);
    SetMaskRegisters(p, c, mask);
  }

  lemma SetMaskRegisters(p: Poller, c: nat, mask: Mask)
    requires c in p.chans && ChannelAgrees(p, c)
    ensures SetMask(p, c, mask) == Ok(Registered(p, c, mask))
  {
    var q := Registered(p, c, mask);
    var ch := p.chans[c];
    if ch.index != New {
      assert p.channels[ch.fd := c] == p.channels;
    }
    var p1 := p.(chans := p.chans[c := ch.(mask := mask)]);
    assert SetMask(p, c, mask).Ok?;
    assert SetMask(p, c, mask).value.chans == q.chans;
  }

  lemma RemoveSafe(p: Poller, c: nat)
    requires Inv(p) && c in p.chans && p.chans[c].index != New && p.chans[c].mask == NONE
    ensures Remove(p, c).Ok? && Inv(Remove(p, c).value)
    ensures Remove(p, c).value.chans == p.chans[c := Channel(p.chans[c].fd, NONE, New)]
  {
    hide ChannelAgrees;
    RemoveAgrees(p, c);
    var q := Remove(p, c).value;
    forall d | d in q.chans ensures ChannelAgrees(q, d) {
      if d != c {
        RemoveKeeps(p, c, d);
      }
    }
    RemoveMaps(p, c);
  }

  lemma RemoveAgrees(p: Poller, c: nat)
    requires c in p.chans && ChannelAgrees(p, c) && p.chans[c].index != New && p.chans[c].mask == NONE
    ensures Remove(p, c).Ok? && Remove(p, c).value.chans == p.chans[c := Channel(p.chans[c].fd, NONE, New)]
    ensures Remove(p, c).value.channels == p.channels - {p.chans[c].fd}
    ensures Remove(p, c).value.kernel == p.kernel - {p.chans[c].fd}
    ensures ChannelAgrees(Remove(p, c).value, c)
  {
    assert p.chans[c].fd !in p.kernel ==> p.kernel - {p.chans[c].fd} == p.kernel;
  }

  lemma RemoveKeeps(p: Poller, c: nat, d: nat)
    requires c in p.chans && ChannelAgrees(p, c) && p.chans[c].index != New && p.chans[c].mask == NONE
    requires d in p.chans && d != c && ChannelAgrees(p, d) && p.chans[d].fd != p.chans[c].fd
    ensures Remove(p, c).Ok? && ChannelAgrees(Remove(p, c).value, d)
  {
  }

  lemma RemoveMaps(p: Poller, c: nat)
    requires Inv(p) && c in p.chans && p.chans[c].index != New && p.chans[c].mask == NONE
    ensures
      var q := Remove(p, c);
      && q.Ok?
      && (forall fd :: fd in q.value.channels ==>
        q.value.channels[fd] in q.value.chans && q.value.chans[q.value.channels[fd]].fd == fd)
      && forall fd :: fd in q.value.kernel ==>
        fd in q.value.channels && q.value.kernel[fd].0 == q.value.channels[fd]
  {
    hide ChannelAgrees;
    RemoveAgrees(p, c);
  }

  // A channel object comes and goes outside the poller's sight.
  lemma CreateSafe(p: Poller, c: nat, fd: int)
    requires Inv(p) && c !in p.chans && forall d :: d in p.chans ==> p.chans[d].fd != fd
    ensures Inv(p.(chans := p.chans[c := Channel(fd, NONE, New)]))
  {
    var q := p.(chans := p.chans[c := Channel(fd, NONE, New)]);
    assert fd !in p.channels;
    forall d | d in q.chans ensures ChannelAgrees(q, d) {
      assert d != c ==> ChannelAgrees(p, d);
    }
  }

  lemma DropSafe(p: Poller, c: nat)
    requires Inv(p) && c in p.chans && p.chans[c].index == New
    ensures Inv(p.(chans := p.chans - {c}))
  {
    var q := p.(chans := p.chans - {c});
    assert ChannelAgrees(p, c);
    forall d | d in q.chans ensures ChannelAgrees(q, d) {
      assert ChannelAgrees(p, d);
    }
  }

  // What fillActiveChannels asserts about every event epoll can report.
  lemma EventsAreMapped(p: Poller, fd: int)
    requires Inv(p) && fd in p.kernel
    ensures fd in p.channels && p.channels[fd] == p.kernel[fd].0
    ensures p.channels[fd] in p.chans && p.chans[p.channels[fd]].index == Added
    ensures p.chans[p.channels[fd]].mask == p.kernel[fd].1
  {
    assert ChannelAgrees(p, p.channels[fd]);
  }

  // ---------- Any sequence of registrations ----------

  datatype Call = Create(chan: nat, fd: int) | Change(chan: nat, mask: Mask) | Unregister(chan: nat) | Delete(chan: nat)

  function Step(p: Poller, e: Call): Outcome<Poller> {
    match e
    case Create(c, fd) => Ok(p.(chans := p.chans[c := Channel(fd, NONE, New)]))
    case Change(c, mask) => if c in p.chans then SetMask(p, c, mask) else Crash
    case Unregister(c) => if c in p.chans then Remove(p, c) else Crash
    case Delete(c) => Ok(p.(chans := p.chans - {c}))
  }

  // Descriptors of living channels are distinct; a channel is removed with an empty mask and after it was
  // added, and deleted only after it was removed.
  predicate Admissible(p: Poller, e: Call) {
    match e
    case Create(c, fd) => c !in p.chans && forall d :: d in p.chans ==> p.chans[d].fd != fd
    case Change(c, _) => c in p.chans
    case Unregister(c) => c in p.chans && p.chans[c].index != New && p.chans[c].mask == NONE
    case Delete(c) => c in p.chans && p.chans[c].index == New
  }

  lemma StepSafe(p: Poller, e: Call)
    requires Inv(p) && Admissible(p, e)
    ensures Step(p, e).Ok? && Inv(Step(p, e).value)
  {
    hide Inv;
    match e
    case Create(c, fd) => CreateSafe(p, c, fd);
    case Change(c, mask) => SetMaskSafe(p, c, mask);
    case Unregister(c) => RemoveSafe(p, c);
    case Delete(c) => DropSafe(p, c);
  }

  function Run(p: Poller, es: seq<Call>): Outcome<Poller> {
    if es == [] then Ok(p) else
    match Run(p, es[..|es| - 1])
    case Crash => Crash
    case Ok(q) => Step(q, es[|es| - 1])
  }

  ghost predicate AdmissibleRun(p: Poller, es: seq<Call>) {
    es == [] ||
    (AdmissibleRun(p, es[..|es| - 1]) &&
     (Run(p, es[..|es| - 1]).Ok? ==> Admissible(Run(p, es[..|es| - 1]).value, es[|es| - 1])))
  }

  const EMPTY := Poller(map[], map[], map[])

  // In every run the three views of every channel agree and nothing fails.
  lemma {:induction false} EveryRunSafe(es: seq<Call>)
    requires AdmissibleRun(EMPTY, es)
    ensures Run(EMPTY, es).Ok? && Inv(Run(EMPTY, es).value)
  {
    hide Step, Admissible;
    if es != [] {
      EveryRunSafe(es[..|es| - 1]);
      StepSafe(Run(EMPTY, es[..|es| - 1]).value, es[|es| - 1]);
    }
  }

  // ---------- The poller object ----------

  class EPollPoller {
    var chans: map<nat, Channel>
    var channels: map<int, nat>
    var kernel: map<int, (nat, Mask)>

    ghost function Abs(): Poller
      reads this
    {
      Poller(chans, channels, kernel)
    }

    constructor ()
      ensures Abs() == EMPTY && Inv(Abs())
    {
      chans, channels, kernel := map[], map[], map[];
    }

    // One Channel::enable... or disable... call.
    method UpdateChannel(c: nat, mask: Mask)
      requires Inv(Abs()) && c in chans
      modifies this
      ensures Inv(Abs()) && SetMask(old(Abs()), c, mask) == Ok(Abs())
    {
      hide Inv;
      SetMaskSafe(Abs(), c, mask);
      chans := chans[c := chans[c].(mask := mask)];
      var fd := chans[c].fd;
      var index := chans[c].index;
      if index == New || index == Deleted {
        if index == New {
          channels := channels[fd := c];
        }
        chans := chans[c := chans[c].(index := Added)];
        kernel := kernel[fd := (c, mask)];
      } else {
        if mask == NONE {
          kernel := kernel - {fd};
          chans := chans[c := chans[c].(index := Deleted)];
        } else {
          kernel := kernel[fd := (c, mask)];
        }
      }
    }

    method RemoveChannel(c: nat)
      requires Inv(Abs()) && c in chans && chans[c].index != New && chans[c].mask == NONE
      modifies this
      ensures Inv(Abs()) && Remove(old(Abs()), c) == Ok(Abs())
    {
      RemoveSafe(Abs(), c);
      var fd := chans[c].fd;
      var index := chans[c].index;
      channels := channels - {fd};
      if index == Added {
        kernel := kernel - {fd};
      }
      chans := chans[c := chans[c].(index := New)];
    }

    // The channels of the events epoll_wait returned, in order.
    method FillActiveChannels(events: seq<int>) returns (active: seq<nat>)
      requires Inv(Abs()) && forall i :: 0 <= i < |events| ==> events[i] in kernel
      ensures |active| == |events|
      ensures forall i :: 0 <= i < |events| ==>
        && active[i] in chans && chans[active[i]].fd == events[i] && chans[active[i]].index == Added
        && events[i] in channels && channels[events[i]] == active[i]
    {
      hide Inv;
      active := [];
      for i := 0 to |events|
        invariant |active| == i
        invariant forall k :: 0 <= k < i ==>
          && active[k] in chans && chans[active[k]].fd == events[k] && chans[active[k]].index == Added
          && events[k] in channels && channels[events[k]] == active[k]
      {
        EventsAreMapped(Abs(), events[i]);
        KernelFd(Abs(), events[i]);
        var channel := kernel[events[i]].0;
        active := active + [channel];
      }
    }
  }

  lemma KernelFd(p: Poller, fd: int)
    requires Inv(p) && fd in p.kernel
    ensures p.kernel[fd].0 in p.chans && p.chans[p.kernel[fd].0].fd == fd
  {
  }
}
