/** Model of muduo's EPollPoller: the registration state machine that moves each
    channel between the New, Added and Deleted tags while keeping the fd -> channel
    map and the kernel's epoll interest list in step, and the poll path that copies
    the events epoll_wait returned into the caller's active-channel list.

    The kernel is modelled by its interest list (fd -> event mask) and by the batch
    epoll_wait returns, which the caller of Poll supplies. */
module Poller {

  /** Channel index tags: never registered, registered with epoll, known but not registered. */
  const New: int := -1
  const Added: int := 1
  const Deleted: int := 2

  /** The empty interest mask of a channel (Channel::kNoneEvent). */
  const NoneEvent: int := 0

  /** The epoll_ctl operations: EPOLL_CTL_ADD, EPOLL_CTL_MOD, EPOLL_CTL_DEL. */
  datatype Op = Add | Mod | Del

  /** One epoll_ctl call: operation, descriptor and the channel's interest mask. */
  datatype CtlCall = CtlCall(op: Op, fd: int, mask: int)

  /** Outcome of an epoll_ctl call: whether it succeeded, and the interest list after it. */
  datatype CtlResult = CtlResult(ok: bool, interest: map<int, int>)

  /** epoll_ctl on an interest list: ADD fails on a registered fd, MOD and DEL on an
      unregistered one; a failed call leaves the list as it was. */
  function Ctl(interest: map<int, int>, call: CtlCall): CtlResult
  {
    match call.op
    case Add =>
      if call.fd in interest then CtlResult(false, interest)
      else CtlResult(true, interest[call.fd := call.mask])
    case Mod =>
      if call.fd in interest then CtlResult(true, interest[call.fd := call.mask])
      else CtlResult(false, interest)
    case Del =>
      if call.fd in interest then CtlResult(true, interest - {call.fd})
      else CtlResult(false, interest)
  }

  /** The registration state of a poller: for each fd in channels_, the index of its
      channel, and the kernel's interest list for the epoll instance. */
  datatype Registry = Registry(tags: map<int, int>, interest: map<int, int>)
  {
    /** The index of the channel registered under fd; a channel the poller does not know is New. */
    function IndexOf(fd: int): int {
      if fd in tags then tags[fd] else New
    }

    /** fd is in channels_ iff its index is Added or Deleted, and fd is in the
        interest list iff its index is Added. */
    ghost predicate Valid() {
      (forall fd | fd in tags :: tags[fd] == Added || tags[fd] == Deleted) &&
      (forall fd | fd in interest :: fd in tags && tags[fd] == Added) &&
      (forall fd | fd in tags && tags[fd] == Added :: fd in interest)
    }

    /** The epoll_ctl call updateChannel issues for a channel on fd with the given mask:
        ADD for a New or Deleted channel (whatever its mask), otherwise DEL when the
        mask is empty and MOD when it is not. */
    function UpdateCall(fd: int, mask: int): CtlCall {
      var index := IndexOf(fd);
      if index == New || index == Deleted then CtlCall(Add, fd, mask)
      else if mask == NoneEvent then CtlCall(Del, fd, mask)
      else CtlCall(Mod, fd, mask)
    }

    /** updateChannel on the channel of fd whose interest mask is mask. */
    function Update(fd: int, mask: int): (r: Registry)
      requires Valid()
      ensures r.Valid()
      ensures Ctl(interest, UpdateCall(fd, mask)).ok
      ensures r.tags.Keys == tags.Keys + {fd}
      ensures r.IndexOf(fd) == if IndexOf(fd) == Added && mask == NoneEvent then Deleted else Added
      ensures r.IndexOf(fd) == Added ==> r.interest[fd] == mask
      ensures r.tags - {fd} == tags - {fd} && r.interest - {fd} == interest - {fd}
    {
      var tag := if IndexOf(fd) == Added && mask == NoneEvent then Deleted else Added;
      Registry(tags[fd := tag], Ctl(interest, UpdateCall(fd, mask)).interest)
    }

    /** The epoll_ctl calls removeChannel issues: DEL only when the channel is Added. */
    function RemoveCalls(fd: int, mask: int): seq<CtlCall> {
      if IndexOf(fd) == Added then [CtlCall(Del, fd, mask)] else []
    }

    /** removeChannel on the channel of fd. */
    function Remove(fd: int): (r: Registry)
      requires Valid()
      ensures r.Valid()
      ensures forall call | call in RemoveCalls(fd, NoneEvent) :: Ctl(interest, call).ok
      ensures r.IndexOf(fd) == New && fd !in r.interest
      ensures r.tags == tags - {fd} && r.interest == interest - {fd}
    {
      var after := if IndexOf(fd) == Added then Ctl(interest, CtlCall(Del, fd, NoneEvent)).interest
                   else interest;
      Registry(tags - {fd}, after)
    }
  }

  /** A registration request the owning loop makes of the poller. */
  datatype Request = UpdateRequest(fd: int, mask: int) | RemoveRequest(fd: int)

  /** The registry after one request. */
  function Step(reg: Registry, req: Request): (r: Registry)
    requires reg.Valid()
    ensures r.Valid()
  {
    match req
    case UpdateRequest(fd, mask) => reg.Update(fd, mask)
    case RemoveRequest(fd) => reg.Remove(fd)
  }

  /** The epoll_ctl calls one request issues. */
  function Issued(reg: Registry, req: Request): seq<CtlCall> {
    match req
    case UpdateRequest(fd, mask) => [reg.UpdateCall(fd, mask)]
    case RemoveRequest(fd) => reg.RemoveCalls(fd, NoneEvent)
  }

  /** Every epoll_ctl call that a sequence of requests issues succeeds. */
  ghost predicate AllSucceed(reg: Registry, reqs: seq<Request>)
    requires reg.Valid()
    decreases |reqs|
  {
    reqs == [] ||
    ((forall call | call in Issued(reg, reqs[0]) :: Ctl(reg.interest, call).ok) &&
     AllSucceed(Step(reg, reqs[0]), reqs[1..]))
  }

  /** Driven only through updateChannel and removeChannel, the poller never issues a
      failing epoll_ctl call: the fatal ADD/MOD paths and the logged DEL failure are
      unreachable from a valid registry. */
  lemma {:induction false} NoCtlFailure(reg: Registry, reqs: seq<Request>)
    requires reg.Valid()
    ensures AllSucceed(reg, reqs)
    decreases |reqs|
  {
    if reqs != [] {
      var _ := Step(reg, reqs[0]);
      NoCtlFailure(Step(reg, reqs[0]), reqs[1..]);
    }
  }

  /** Added -> Deleted -> Added: the channel is re-registered with ADD while its
      fd -> channel association stays in place throughout. */
  lemma DeleteThenReAdd(reg: Registry, fd: int, mask: int)
    requires reg.Valid() && reg.IndexOf(fd) == Added && mask != NoneEvent
    ensures reg.UpdateCall(fd, NoneEvent) == CtlCall(Del, fd, NoneEvent)
    ensures var mid := reg.Update(fd, NoneEvent);
      mid.IndexOf(fd) == Deleted && fd in mid.tags && fd !in mid.interest &&
      mid.UpdateCall(fd, mask) == CtlCall(Add, fd, mask) &&
      mid.Update(fd, mask).tags == reg.tags &&
      mid.Update(fd, mask).interest == reg.interest[fd := mask]
  {
  }

  /** A New channel is registered with ADD even when its mask is empty. */
  lemma NewChannelAddedWithoutEvents(reg: Registry, fd: int)
    requires reg.Valid() && reg.IndexOf(fd) == New
    ensures reg.UpdateCall(fd, NoneEvent).op == Add
    ensures reg.Update(fd, NoneEvent).IndexOf(fd) == Added
    ensures reg.Update(fd, NoneEvent).interest[fd] == NoneEvent
  {
  }

  /** The part of a Channel the poller reads and writes. */
  class Channel {
    const fd: int
    var events: int
    var revents: int
    var index: int

    constructor (fd: int, events: int)
      ensures this.fd == fd && this.events == events && revents == 0 && index == New
    {
      this.fd := fd;
      this.events := events;
      revents := 0;
      index := New;
    }

    predicate IsNoneEvent()
      reads this
    {
      events == NoneEvent
    }
  }

  /** The owning loop's list of active channels, which poll appends to. */
  class ChannelList {
    var items: seq<Channel>

    constructor ()
      ensures items == []
    {
      items := [];
    }
  }

  /** One slot of the event array: the ready mask and the channel pointer stored at registration. */
  datatype EpollEvent = EpollEvent(mask: int, ptr: Channel?)

  /** What epoll_wait returned: a batch of ready events (possibly none), or an error. */
  datatype WaitResult = Ready(fired: seq<EpollEvent>) | Failed(errno: int)
  {
    function Batch(): seq<EpollEvent> {
      if Ready? then fired else []
    }
  }

  /** A batch as epoll_wait reports it: each slot carries a channel, and no channel twice. */
  ghost predicate WellFormedBatch(batch: seq<EpollEvent>) {
    (forall i | 0 <= i < |batch| :: batch[i].ptr != null) &&
    (forall i, j | 0 <= i < j < |batch| :: batch[i].ptr != batch[j].ptr)
  }

  /** The channels of a batch. */
  ghost function Targets(batch: seq<EpollEvent>): set<Channel?> {
    set i | 0 <= i < |batch| :: batch[i].ptr
  }

  /** The channels of a batch, in event-array order. */
  function Pointers(batch: seq<EpollEvent>): (chans: seq<Channel>)
    requires forall i | 0 <= i < |batch| :: batch[i].ptr != null
    ensures |chans| == |batch|
    ensures forall i | 0 <= i < |batch| :: chans[i] == batch[i].ptr
  {
    if batch == [] then [] else Pointers(batch[..|batch| - 1]) + [batch[|batch| - 1].ptr]
  }

  /** A freshly zeroed event slot. */
  const EmptyEvent := EpollEvent(0, null)

  class EPollPoller {
    /** channels_: fd -> channel, for every channel that is Added or Deleted. */
    var channels: map<int, Channel>
    /** The kernel's interest list of the epoll instance: fd -> event mask. */
    var interest: map<int, int>
    /** events_: the array epoll_wait fills. */
    var events: seq<EpollEvent>
    /** The epoll_ctl calls issued so far, oldest first. */
    ghost var log: seq<CtlCall>

    /** The registration state: the index of every mapped channel, and the interest list. */
    ghost function Registrations(): Registry
      reads this, channels.Values`index
    {
      Registry(map fd | fd in channels :: channels[fd].index, interest)
    }

    ghost predicate Valid()
      reads this, channels.Values`index
    {
      |events| > 0 &&
      (forall fd | fd in channels :: channels[fd].fd == fd) &&
      Registrations().Valid()
    }

    /** ch is the channel this poller maps its fd to, or it is New and its fd is unmapped. */
    ghost predicate Tracks(ch: Channel)
      reads this, ch`index
    {
      if ch.index == New then ch.fd !in channels
      else ch.fd in channels && channels[ch.fd] == ch
    }

    /** A poller with no channels and an event array of initialSize zeroed slots
        (kInitEventListSize; epoll_create1 is assumed to succeed). */
    constructor (initialSize: nat)
      requires initialSize > 0
      ensures Valid() && channels == map[] && interest == map[] && log == []
      ensures events == seq(initialSize, _ => EmptyEvent)
    {
      channels := map[];
      interest := map[];
      events := seq(initialSize, _ => EmptyEvent);
      log := [];
    }

    /** update(op, channel): one epoll_ctl call with the channel's current mask. A
        failed DEL is only logged; a failed ADD or MOD is fatal, so it is excluded. */
    method Update(op: Op, ch: Channel) returns (ok: bool)
      requires op != Del ==> Ctl(interest, CtlCall(op, ch.fd, ch.events)).ok
      modifies this`interest, this`log
      ensures log == old(log) + [CtlCall(op, ch.fd, ch.events)]
      ensures ok == Ctl(old(interest), CtlCall(op, ch.fd, ch.events)).ok
      ensures interest == Ctl(old(interest), CtlCall(op, ch.fd, ch.events)).interest
      ensures !ok ==> interest == old(interest)
    {
      var call := CtlCall(op, ch.fd, ch.events);
      var result := Ctl(interest, call);
      ok := result.ok;
      interest := result.interest;
      log := log + [call];
    }

    /** updateChannel: New or Deleted -> Added with ADD (New also maps fd to the
        channel); Added with an empty mask -> Deleted with DEL; Added otherwise stays
        Added with MOD. */
    method UpdateChannel(ch: Channel)
      requires Valid() && Tracks(ch)
      modifies this, ch`index
      ensures Valid() && Tracks(ch) && events == old(events)
      ensures Registrations() == old(Registrations()).Update(ch.fd, ch.events)
      ensures log == old(log) + [old(Registrations()).UpdateCall(ch.fd, ch.events)]
      ensures channels == if old(ch.index) == New then old(channels)[ch.fd := ch] else old(channels)
      ensures ch.index == if old(ch.index) == Added && ch.IsNoneEvent() then Deleted else Added
      ensures ch.index == Added ==> interest[ch.fd] == ch.events
    {
      ghost var before := Registrations();
      ghost var mapped := channels;
      var index := ch.index;
      if index == New || index == Deleted {
        if index == New {
          channels := channels[ch.fd := ch];
        }
        ch.index := Added;
        var ok := Update(Add, ch);
      } else {
        if ch.IsNoneEvent() {
          var ok := Update(Del, ch);
          ch.index := Deleted;
        } else {
          var ok := Update(Mod, ch);
        }
      }
      ghost var tags := before.tags[ch.fd := ch.index];
      assert channels.Keys == tags.Keys;
      forall fd | fd in channels
        ensures channels[fd].index == tags[fd]
      {
        if fd != ch.fd {
          assert channels[fd] == mapped[fd] && mapped[fd].fd == fd;
        }
      }
      assert Registrations().tags == tags;
      assert Registrations() == before.Update(ch.fd, ch.events);
    }

    /** removeChannel: erase fd from channels_, DEL it only when Added, tag it New. */
    method RemoveChannel(ch: Channel)
      requires Valid() && Tracks(ch)
      modifies this, ch`index
      ensures Valid() && Tracks(ch) && events == old(events)
      ensures Registrations() == old(Registrations()).Remove(ch.fd)
      ensures log == old(log) + old(Registrations()).RemoveCalls(ch.fd, ch.events)
      ensures channels == old(channels) - {ch.fd}
      ensures ch.index == New
    {
      ghost var before := Registrations();
      ghost var mapped := channels;
      channels := channels - {ch.fd};
      var index := ch.index;
      if index == Added {
        var ok := Update(Del, ch);
      }
      ch.index := New;
      ghost var tags := before.tags - {ch.fd};
      assert channels.Keys == tags.Keys;
      forall fd | fd in channels
        ensures channels[fd].index == tags[fd]
      {
        assert channels[fd] == mapped[fd] && mapped[fd].fd == fd;
      }
      assert Registrations().tags == tags;
    }

    /** fillActiveChannels(n, active): for each of the first n slots in order, set the
        channel's revents to the slot's mask and append the channel to active. */
    method FillActiveChannels(numEvents: nat, active: ChannelList)
      requires numEvents <= |events| && WellFormedBatch(events[..numEvents])
      modifies active`items, Targets(events[..numEvents])`revents
      ensures active.items == old(active.items) + Pointers(events[..numEvents])
      ensures forall i | 0 <= i < numEvents :: events[i].ptr.revents == events[i].mask
    {
      var i := 0;
      while i < numEvents
        invariant 0 <= i <= numEvents
        invariant active.items == old(active.items) + Pointers(events[..i])
        invariant forall j | 0 <= j < i :: events[j].ptr.revents == events[j].mask
      {
        var ch := events[i].ptr;
        ch.revents := events[i].mask;
        active.items := active.items + [ch];
        assert events[..i + 1][..i] == events[..i];
        i := i + 1;
      }
    }

    /** poll(timeoutMs, active): epoll_wait's outcome is the parameter result and the
        clock reading the parameter now. A non-empty batch is copied to the front of the
        event array and into active, and a batch that filled the whole array doubles it;
        an empty batch or an error changes nothing. */
    method Poll(timeoutMs: int, now: int, result: WaitResult, active: ChannelList) returns (stamp: int)
      requires Valid()
      requires |result.Batch()| <= |events| && WellFormedBatch(result.Batch())
      modifies this`events, active`items, Targets(result.Batch())`revents
      ensures Valid() && stamp == now
      ensures result.Batch() == [] ==> events == old(events) && active.items == old(active.items)
      ensures result.Batch() != [] ==> active.items == old(active.items) + Pointers(result.Batch())
      ensures forall i | 0 <= i < |result.Batch()| :: result.Batch()[i].ptr.revents == result.Batch()[i].mask
      ensures |result.Batch()| < |old(events)| ==> events == result.Batch() + old(events)[|result.Batch()|..]
      ensures |result.Batch()| == |old(events)| ==>
                events == result.Batch() + seq(|old(events)|, _ => EmptyEvent)
    {
      stamp := now;
      var fired := result.Batch();
      var numEvents := |fired|;
      if numEvents > 0 {
        events := fired + events[numEvents..];
        assert events[..numEvents] == fired;
        FillActiveChannels(numEvents, active);
        if numEvents == |events| {
          events := events + seq(|events|, _ => EmptyEvent);
        }
      }
    }
  }

  /** The owning loop empties an Added channel's interest and then gives it mask: the
      poller issues DEL and then ADD, the channel ends Added with the kernel holding the
      new mask, and channels_ keeps exactly the same entries throughout. */
  method DropAndRestoreInterest(poller: EPollPoller, ch: Channel, mask: int)
    requires poller.Valid() && poller.Tracks(ch) && ch.index == Added && mask != NoneEvent
    modifies poller, ch`index, ch`events
    ensures poller.Valid() && poller.Tracks(ch) && ch.index == Added && ch.events == mask
    ensures poller.channels == old(poller.channels) && poller.events == old(poller.events)
    ensures poller.interest == old(poller.interest)[ch.fd := mask]
    ensures poller.log == old(poller.log) + [CtlCall(Del, ch.fd, NoneEvent), CtlCall(Add, ch.fd, mask)]
  {
    ghost var interest, log := poller.interest, poller.log;
    assert poller.Registrations().IndexOf(ch.fd) == Added;
    ch.events := NoneEvent;
    poller.UpdateChannel(ch);
    assert ch.index == Deleted && poller.interest == interest - {ch.fd};
    assert poller.log == log + [CtlCall(Del, ch.fd, NoneEvent)];
    ch.events := mask;
    poller.UpdateChannel(ch);
    assert poller.interest == (interest - {ch.fd})[ch.fd := mask];
  }

  /** A channel on fd 5 registered with mask 1 (EPOLLIN), then with its interest dropped
      and restored with mask 3 (EPOLLIN|EPOLLPRI): it ends Added, channels_ still maps
      fd 5 to it, and the kernel holds the last mask. */
  method ReRegisterScenario() returns (tag: int, stillMapped: bool, mask: int)
    ensures tag == Added && stillMapped && mask == 3
  {
    var poller := new EPollPoller(16);
    var ch := new Channel(5, 1);
    poller.UpdateChannel(ch);
    DropAndRestoreInterest(poller, ch, 3);
    tag := ch.index;
    stillMapped := 5 in poller.channels && poller.channels[5] == ch;
    mask := poller.interest[5];
  }
}
