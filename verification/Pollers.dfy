/** The two pollers. One keeps an array of pollfds with back-indices in the channels and removes by
    swapping with the last entry; the other keeps a three-state index and mirrors it in the kernel.
    Both implement the same registry, so they watch the same events at all times. */
module Pollers {

  /** A channel serves one file descriptor; the poller it is registered with owns its index. */
  class Channel {
    const fd: int
    var events: int
    var index: int

    constructor (fd: int)
      requires fd >= 0
      ensures this.fd == fd && events == 0 && index == -1
    {
      this.fd, events, index := fd, 0, -1;
    }
  }

  // ----- the contract

  /** What a poller knows of a descriptor: its event mask, and whether the channel has been updated
      to none after it was added. */
  datatype Registration = Registration(events: int, parked: bool)
  type Registry = map<int, Registration>
  type Indices = map<int, int>

  function Updated(reg: Registry, fd: int, events: int): Registry {
    reg[fd := Registration(events, fd in reg && events == 0)]
  }

  function Removed(reg: Registry, fd: int): Registry {
    reg - {fd}
  }

  /** The descriptors being watched, with the events they are watched for. */
  function Watched(reg: Registry): set<(int, int)> {
    set fd | fd in reg && reg[fd].events != 0 :: (fd, reg[fd].events)
  }

  // ----- poll's table

  datatype PollFd = PollFd(fd: int, events: int)

  /** A negative descriptor makes poll skip the entry; this is how one is parked. */
  function Masked(fd: int): int { -fd - 1 }

  function Unmasked(fd: int): int { if fd < 0 then Masked(fd) else fd }

  /** The entry that a registration asks for. */
  function EntryFor(fd: int, r: Registration): PollFd {
    PollFd(if r.parked then Masked(fd) else fd, r.events)
  }

  predicate HasEntry(pollfds: seq<PollFd>, index: Indices, reg: Registry, fd: int)
    requires fd in index && fd in reg
  {
    fd >= 0 && 0 <= index[fd] < |pollfds| && pollfds[index[fd]] == EntryFor(fd, reg[fd])
    && (reg[fd].parked ==> reg[fd].events == 0)
  }

  predicate PointsBack(pollfds: seq<PollFd>, index: Indices, i: int)
    requires 0 <= i < |pollfds|
  {
    Unmasked(pollfds[i].fd) in index && index[Unmasked(pollfds[i].fd)] == i
  }

  /** Entries and back-indices point at each other, and each entry is the one its registration asks for. */
  ghost predicate TableIs(pollfds: seq<PollFd>, index: Indices, reg: Registry) {
    && index.Keys == reg.Keys
    && (forall fd {:trigger HasEntry(pollfds, index, reg, fd)} :: fd in index ==> HasEntry(pollfds, index, reg, fd))
    && (forall i {:trigger PointsBack(pollfds, index, i)} :: 0 <= i < |pollfds| ==> PointsBack(pollfds, index, i))
  }

  lemma TableAppend(pollfds: seq<PollFd>, index: Indices, reg: Registry, fd: int, events: int)
    requires TableIs(pollfds, index, reg) && fd >= 0 && fd !in index
    ensures TableIs(pollfds + [PollFd(fd, events)], index[fd := |pollfds|], Updated(reg, fd, events))
  {
    var pollfds', index', reg' := pollfds + [PollFd(fd, events)], index[fd := |pollfds|], Updated(reg, fd, events);
    forall x | x in index' ensures HasEntry(pollfds', index', reg', x) {
      assert x in index ==> HasEntry(pollfds, index, reg, x);
    }
    forall i | 0 <= i < |pollfds'| ensures PointsBack(pollfds', index', i) {
      assert i < |pollfds| ==> PointsBack(pollfds, index, i);
    }
  }

  lemma TableChange(pollfds: seq<PollFd>, index: Indices, reg: Registry, fd: int, events: int)
    requires TableIs(pollfds, index, reg) && fd in index && 0 <= index[fd] < |pollfds|
    ensures TableIs(pollfds[index[fd] := PollFd(if events == 0 then Masked(fd) else fd, events)], index, Updated(reg, fd, events))
  {
    var pollfds' := pollfds[index[fd] := PollFd(if events == 0 then Masked(fd) else fd, events)];
    var reg' := Updated(reg, fd, events);
    assert HasEntry(pollfds, index, reg, fd);
    forall x | x in index ensures HasEntry(pollfds', index, reg', x) {
      assert HasEntry(pollfds, index, reg, x) && PointsBack(pollfds, index, index[x]);
    }
    forall i | 0 <= i < |pollfds'| ensures PointsBack(pollfds', index, i) {
      assert PointsBack(pollfds, index, i);
    }
  }

  /** Removal by swapping with the last entry, and popping. */
  lemma TableRemove(pollfds: seq<PollFd>, index: Indices, reg: Registry, fd: int)
    requires TableIs(pollfds, index, reg) && fd in index && 0 <= index[fd] < |pollfds|
    ensures var last := |pollfds| - 1; var atEnd := Unmasked(pollfds[last].fd);
            && atEnd in index && (atEnd == fd <==> index[fd] == last)
            && TableIs(pollfds[index[fd] := pollfds[last]][..last], index[atEnd := index[fd]] - {fd}, Removed(reg, fd))
  {
    var last := |pollfds| - 1;
    var atEnd := Unmasked(pollfds[last].fd);
    assert HasEntry(pollfds, index, reg, fd) && PointsBack(pollfds, index, last);
    var pollfds', index', reg' := pollfds[index[fd] := pollfds[last]][..last], index[atEnd := index[fd]] - {fd}, Removed(reg, fd);
    forall x | x in index' ensures HasEntry(pollfds', index', reg', x) {
      assert HasEntry(pollfds, index, reg, x) && PointsBack(pollfds, index, index[x]);
    }
    forall i | 0 <= i < |pollfds'| ensures PointsBack(pollfds', index', i) {
      assert PointsBack(pollfds, index, i);
    }
  }

  lemma TableInterest(pollfds: seq<PollFd>, index: Indices, reg: Registry)
    requires TableIs(pollfds, index, reg)
    ensures (set p | p in pollfds && p.fd >= 0 && p.events != 0 :: (p.fd, p.events)) == Watched(reg)
  {
    var interest := set p | p in pollfds && p.fd >= 0 && p.events != 0 :: (p.fd, p.events);
    forall x | x in interest ensures x in Watched(reg) {
      var p :| p in pollfds && p.fd >= 0 && p.events != 0 && x == (p.fd, p.events);
      var i :| 0 <= i < |pollfds| && pollfds[i] == p;
      assert PointsBack(pollfds, index, i) && HasEntry(pollfds, index, reg, p.fd);
    }
    forall x | x in Watched(reg) ensures x in interest {
      var fd :| fd in reg && reg[fd].events != 0 && x == (fd, reg[fd].events);
      assert HasEntry(pollfds, index, reg, fd);
      assert pollfds[index[fd]] in pollfds;
    }
  }

  lemma TableAt(pollfds: seq<PollFd>, index: Indices, reg: Registry, fd: int)
    requires TableIs(pollfds, index, reg) && fd in index
    ensures fd in reg && 0 <= index[fd] < |pollfds|
  {
    assert HasEntry(pollfds, index, reg, fd);
  }

  lemma UpdatedAt(reg: Registry, fd: int, events: int)
    ensures var r := Updated(reg, fd, events);
            && r.Keys == reg.Keys + {fd} && r[fd].events == events
            && forall x :: x in reg && x != fd ==> r[x] == reg[x]
  {
  }

  // ----- the fields of the channels

  /** A registered channel serves its descriptor and carries the index and the events recorded for it. */
  ghost predicate Carries(channel: Channel, index: Indices, reg: Registry, fd: int)
    requires fd in index && fd in reg
    reads channel
  {
    channel.fd == fd && channel.index == index[fd] && channel.events == reg[fd].events
  }

  ghost predicate ChannelsAre(channels: map<int, Channel>, universe: set<Channel>, index: Indices, reg: Registry)
    reads universe
  {
    && channels.Keys == index.Keys == reg.Keys
    && forall fd {:trigger channels[fd]} :: fd in channels ==> channels[fd] in universe && Carries(channels[fd], index, reg, fd)
  }

  class PollPoller {
    var pollfds: seq<PollFd>
    var channels: map<int, Channel>
    ghost const universe: set<Channel>    // the channels of the loop
    ghost var index: Indices
    ghost var reg: Registry

    ghost predicate Valid()
      reads this, universe
    {
      TableIs(pollfds, index, reg) && ChannelsAre(channels, universe, index, reg)
    }

    constructor (ghost universe: set<Channel>)
      ensures Valid() && reg == map[] && channels == map[] && this.universe == universe
    {
      this.universe := universe;
      pollfds, channels, index, reg := [], map[], map[], map[];
    }

    /** What poll(2) is asked to watch. */
    function Interest(): set<(int, int)>
      reads this
    {
      set p | p in pollfds && p.fd >= 0 && p.events != 0 :: (p.fd, p.events)
    }

    lemma InterestIsWatched()
      requires Valid()
      ensures Interest() == Watched(reg)
    {
      TableInterest(pollfds, index, reg);
    }

    /** A channel may be updated if it is registered here, or was never registered at all. */
    ghost predicate CanUpdate(channel: Channel)
      reads this, channel
    {
      && channel in universe
      && if channel.index < 0 then channel.fd >= 0 && channel.fd !in channels
         else channel.fd in channels && channels[channel.fd] == channel
    }

    /** updateChannel for a new channel. */
    method AddEntry(channel: Channel, events: int)
      requires Valid() && CanUpdate(channel) && channel.index < 0
      modifies this, channel
      ensures Valid() && reg == Updated(old(reg), channel.fd, events)
      ensures channels == old(channels)[channel.fd := channel] && channel.events == events && channel.index >= 0
    {
      TableAppend(pollfds, index, reg, channel.fd, events);
      forall fd | fd in channels ensures channels[fd] != channel {
        TableAt(pollfds, index, reg, fd);
      }
      hide TableIs;
      channel.events := events;
      pollfds := pollfds + [PollFd(channel.fd, events)];
      channel.index := |pollfds| - 1;
      channels := channels[channel.fd := channel];
      index, reg := index[channel.fd := |pollfds| - 1], Updated(reg, channel.fd, events);
    }

    /** updateChannel for a channel that has an entry. */
    method ChangeEntry(channel: Channel, events: int)
      requires Valid() && CanUpdate(channel) && channel.index >= 0
      modifies this`pollfds, this`reg, channel`events
      ensures Valid() && reg == Updated(old(reg), channel.fd, events) && channel.events == events
    {
      TableAt(pollfds, index, reg, channel.fd);
      TableChange(pollfds, index, reg, channel.fd, events);
      hide TableIs;
      channel.events := events;
      var fd := if events == 0 then Masked(channel.fd) else channel.fd;
      pollfds := pollfds[channel.index := PollFd(fd, events)];
      reg := Updated(reg, channel.fd, events);
    }

    /** Channel::enable.. / disable.. and updateChannel. */
    method Update(channel: Channel, events: int)
      requires Valid() && CanUpdate(channel)
      modifies this, channel
      ensures Valid() && reg == Updated(old(reg), channel.fd, events)
      ensures channels == old(channels)[channel.fd := channel] && channel.events == events && channel.index >= 0
    {
      hide TableIs, ChannelsAre, Updated;
      if channel.index < 0 {
        AddEntry(channel, events);
      } else {
        ChangeEntry(channel, events);
      }
    }

    /** Only a parked channel may be removed. Its index is left behind, so it cannot be added again. */
    method Remove(channel: Channel)
      requires Valid() && channel.fd in channels && channels[channel.fd] == channel
      requires channel.events == 0 && channel.fd in reg && reg[channel.fd].parked
      modifies this, universe
      ensures Valid() && reg == Removed(old(reg), channel.fd)
      ensures channels == old(channels) - {channel.fd}
      ensures channel.index == old(channel.index) >= 0 && !CanUpdate(channel)
      ensures forall c :: c in universe ==> c.events == old(c.events) && (c.index >= 0 <==> old(c.index) >= 0)
    {
      TableAt(pollfds, index, reg, channel.fd);
      TableRemove(pollfds, index, reg, channel.fd);
      var idx, last := channel.index, |pollfds| - 1;
      var atEnd := Unmasked(pollfds[last].fd);
      TableAt(pollfds, index, reg, atEnd);
      hide TableIs;
      index := index[atEnd := idx] - {channel.fd};
      channels := channels - {channel.fd};
      reg := Removed(reg, channel.fd);
      if idx == last {
        assert pollfds[idx := pollfds[last]][..last] == pollfds[..last];
        pollfds := pollfds[..last];
      } else {
        pollfds := pollfds[idx := pollfds[last]][..last];
        channels[atEnd].index := idx;
      }
    }
  }

  // ----- epoll

  const NEW := -1
  const ADDED := 1
  const DELETED := 2

  datatype Operation = CtlAdd | CtlMod | CtlDel

  predicate IsMirrored(kernel: map<int, int>, index: Indices, reg: Registry, fd: int)
    requires fd in index && fd in reg
  {
    && index[fd] == (if fd in kernel then ADDED else DELETED)
    && reg[fd].events == (if fd in kernel then kernel[fd] else 0)
  }

  /** A channel's index says whether the kernel knows its descriptor, and with the same events. */
  ghost predicate MirrorIs(kernel: map<int, int>, index: Indices, reg: Registry) {
    && kernel.Keys <= index.Keys == reg.Keys
    && forall fd {:trigger IsMirrored(kernel, index, reg, fd)} :: fd in index ==> IsMirrored(kernel, index, reg, fd)
  }

  /** Changing one descriptor, in the kernel and in the registry alike. */
  lemma MirrorChange(kernel: map<int, int>, index: Indices, reg: Registry, fd: int, events: int)
    requires MirrorIs(kernel, index, reg)
    ensures MirrorIs(kernel[fd := events], index[fd := ADDED], Updated(reg, fd, events))
    ensures MirrorIs(kernel - {fd}, index[fd := DELETED], Updated(reg, fd, 0))
    ensures MirrorIs(kernel - {fd}, index - {fd}, Removed(reg, fd))
  {
    forall x | x in index ensures IsMirrored(kernel, index, reg, x) {
    }
  }

  lemma MirrorAt(kernel: map<int, int>, index: Indices, reg: Registry, fd: int)
    requires MirrorIs(kernel, index, reg)
    ensures if fd in index then fd in reg && IsMirrored(kernel, index, reg, fd) else fd !in kernel
  {
  }

  class EPollPoller {
    var channels: map<int, Channel>
    var kernel: map<int, int>             // the interest list behind epollfd_
    ghost const universe: set<Channel>
    ghost var index: Indices
    ghost var reg: Registry

    ghost predicate Valid()
      reads this, universe
    {
      MirrorIs(kernel, index, reg) && ChannelsAre(channels, universe, index, reg)
    }

    constructor (ghost universe: set<Channel>)
      ensures Valid() && reg == map[] && channels == map[] && this.universe == universe
    {
      this.universe := universe;
      channels, kernel, index, reg := map[], map[], map[], map[];
    }

    function Interest(): set<(int, int)>
      reads this
    {
      set fd | fd in kernel && kernel[fd] != 0 :: (fd, kernel[fd])
    }

    lemma InterestIsWatched()
      requires Valid()
      ensures Interest() == Watched(reg)
    {
      forall fd ensures if fd in reg then IsMirrored(kernel, index, reg, fd) else fd !in kernel {
        MirrorAt(kernel, index, reg, fd);
      }
    }

    /** epoll_ctl, which fails on an ADD of a present descriptor and a MOD or DEL of an absent one. */
    method Ctl(op: Operation, fd: int, events: int)
      requires if op == CtlAdd then fd !in kernel else fd in kernel
      modifies this`kernel
      ensures kernel == if op == CtlDel then old(kernel) - {fd} else old(kernel)[fd := events]
    {
      kernel := if op == CtlDel then kernel - {fd} else kernel[fd := events];
    }

    ghost predicate CanUpdate(channel: Channel)
      reads this, channel
    {
      && channel in universe
      && if channel.index == NEW then channel.fd !in channels
         else channel.fd in channels && channels[channel.fd] == channel
    }

    lemma RegisteredIsNotNew()
      requires Valid()
      ensures forall fd :: fd in channels ==> channels[fd] in universe && channels[fd].index != NEW
    {
      forall fd | fd in channels ensures channels[fd].index != NEW {
        MirrorAt(kernel, index, reg, fd);
      }
    }

    lemma UnknownToKernel(channel: Channel, events: int)
      requires Valid() && CanUpdate(channel) && (channel.index == NEW || channel.index == DELETED)
      ensures channel.fd !in kernel && forall fd :: fd in channels && fd != channel.fd ==> channels[fd] != channel
      ensures MirrorIs(kernel[channel.fd := events], index[channel.fd := ADDED], Updated(reg, channel.fd, events))
    {
      MirrorAt(kernel, index, reg, channel.fd);
      MirrorChange(kernel, index, reg, channel.fd, events);
    }

    lemma EventsAreRecorded(fd: int)
      requires Valid() && fd in channels
      ensures channels[fd] in universe && fd in reg && channels[fd].events == reg[fd].events
    {
    }

    /** updateChannel for a channel that the kernel does not know. */
    method AddToKernel(channel: Channel, events: int)
      requires Valid() && CanUpdate(channel) && (channel.index == NEW || channel.index == DELETED)
      modifies this, channel
      ensures Valid() && reg == Updated(old(reg), channel.fd, events)
      ensures channels == old(channels)[channel.fd := channel] && channel.events == events && channel.index == ADDED
    {
      UnknownToKernel(channel, events);
      UpdatedAt(reg, channel.fd, events);
      hide MirrorIs, Updated, IsMirrored;
      Ctl(CtlAdd, channel.fd, events);
      channel.events, channel.index := events, ADDED;
      channels := channels[channel.fd := channel];
      index, reg := index[channel.fd := ADDED], Updated(reg, channel.fd, events);
      forall fd | fd in channels ensures channels[fd] in universe && Carries(channels[fd], index, reg, fd) {
        assert fd != channel.fd ==> old(channels[fd] in universe && Carries(channels[fd], index, reg, fd));
      }
    }

    /** updateChannel for a channel that the kernel knows. */
    method ChangeInKernel(channel: Channel, events: int)
      requires Valid() && CanUpdate(channel) && channel.index == ADDED
      modifies this`kernel, this`index, this`reg, channel
      ensures Valid() && reg == Updated(old(reg), channel.fd, events)
      ensures channel.events == events && channel.index != NEW
    {
      MirrorAt(kernel, index, reg, channel.fd);
      MirrorChange(kernel, index, reg, channel.fd, events);
      UpdatedAt(reg, channel.fd, events);
      hide MirrorIs, Updated;
      channel.events := events;
      if events == 0 {
        Ctl(CtlDel, channel.fd, events);
        channel.index := DELETED;
      } else {
        Ctl(CtlMod, channel.fd, events);
      }
      index, reg := index[channel.fd := channel.index], Updated(reg, channel.fd, events);
    }

    method Update(channel: Channel, events: int)
      requires Valid() && CanUpdate(channel)
      modifies this, channel
      ensures Valid() && reg == Updated(old(reg), channel.fd, events)
      ensures channels == old(channels)[channel.fd := channel] && channel.events == events && channel.index != NEW
    {
      RegisteredIsNotNew();
      if channel.fd in index { MirrorAt(kernel, index, reg, channel.fd); }
      hide MirrorIs, Updated;
      if channel.index == NEW || channel.index == DELETED {
        AddToKernel(channel, events);
      } else {
        ChangeInKernel(channel, events);
      }
    }

    /** Here a removed channel is as new. */
    method Remove(channel: Channel)
      requires Valid() && channel.fd in channels && channels[channel.fd] == channel && channel.events == 0
      modifies this, channel
      ensures Valid() && reg == Removed(old(reg), channel.fd)
      ensures channels == old(channels) - {channel.fd} && channel.events == 0
      ensures channel.index == NEW && CanUpdate(channel)
    {
      MirrorAt(kernel, index, reg, channel.fd);
      MirrorChange(kernel, index, reg, channel.fd, 0);
      hide MirrorIs;
      channels := channels - {channel.fd};
      assert channel.fd !in kernel ==> kernel - {channel.fd} == kernel;
      if channel.index == ADDED {
        Ctl(CtlDel, channel.fd, 0);
      }
      channel.index := NEW;
      index, reg := index - {channel.fd}, Removed(reg, channel.fd);
    }
  }

  // ----- the two side by side

  datatype Request = Update(id: nat, events: int) | Remove(id: nat)

  /** Which channel holds each descriptor, which channels were ever used, and the registry. */
  datatype History = History(holder: map<int, nat>, used: set<nat>, reg: Registry)

  const START := History(map[], {}, map[])

  /** No channel comes back after its removal, and only parked channels are removed. `fds` gives the
      descriptor of each channel; descriptors are reused by later channels. */
  predicate Legal(h: History, fds: seq<int>, r: Request) {
    && r.id < |fds|
    && var fd := fds[r.id];
       match r
       case Update(id, _) => if id in h.used then fd in h.holder && h.holder[fd] == id else fd !in h.holder
       case Remove(id) => fd in h.holder && h.holder[fd] == id && fd in h.reg && h.reg[fd].parked && h.reg[fd].events == 0
  }

  function Next(h: History, fds: seq<int>, r: Request): History
    requires Legal(h, fds, r)
  {
    var fd := fds[r.id];
    match r
    case Update(id, events) => History(h.holder[fd := id], h.used + {id}, Updated(h.reg, fd, events))
    case Remove(id) => History(h.holder - {fd}, h.used, Removed(h.reg, fd))
  }

  predicate IsLegal(h: History, fds: seq<int>, run: seq<Request>)
    decreases |run|
  {
    run == [] || (Legal(h, fds, run[0]) && IsLegal(Next(h, fds, run[0]), fds, run[1..]))
  }

  function Final(h: History, fds: seq<int>, run: seq<Request>): History
    requires IsLegal(h, fds, run)
    decreases |run|
  {
    if run == [] then h else Final(Next(h, fds, run[0]), fds, run[1..])
  }

  /** The events that the last request for a descriptor asks for; none after a removal. */
  function AskedFor(now: int, fds: seq<int>, run: seq<Request>, fd: int): int
    decreases |run|
  {
    if run == [] then now
    else
      var r := run[0];
      var next := if r.id < |fds| && fds[r.id] == fd then (if r.Update? then r.events else 0) else now;
      AskedFor(next, fds, run[1..], fd)
  }

  function EventsOf(reg: Registry, fd: int): int { if fd in reg then reg[fd].events else 0 }

  lemma {:induction false} RegistryIsAskedFor(h: History, fds: seq<int>, run: seq<Request>, fd: int)
    requires IsLegal(h, fds, run)
    ensures EventsOf(Final(h, fds, run).reg, fd) == AskedFor(EventsOf(h.reg, fd), fds, run, fd)
    decreases |run|
  {
    if run != [] {
      RegistryIsAskedFor(Next(h, fds, run[0]), fds, run[1..], fd);
    }
  }

  lemma WatchedIsAskedFor(fds: seq<int>, run: seq<Request>, fd: int, events: int)
    requires IsLegal(START, fds, run)
    ensures (fd, events) in Watched(Final(START, fds, run).reg) <==> events != 0 && AskedFor(0, fds, run, fd) == events
  {
    RegistryIsAskedFor(START, fds, run, fd);
    hide AskedFor, Final;
  }

  /** One channel object per id, in the universe of its poller. */
  ghost predicate AreChannels(cs: seq<Channel>, universe: set<Channel>, fds: seq<int>) {
    && |cs| == |fds|
    && (forall i :: 0 <= i < |cs| ==> cs[i] in universe && cs[i].fd == fds[i] >= 0)
    && (forall i, j :: 0 <= i < j < |cs| ==> cs[i] != cs[j])
  }

  /** A poller's table maps each held descriptor to the channel that holds it. */
  ghost predicate Holds(channels: map<int, Channel>, cs: seq<Channel>, fds: seq<int>, h: History) {
    && |cs| == |fds| && channels.Keys == h.holder.Keys
    && forall fd {:trigger channels[fd]} :: fd in channels ==>
         var id := h.holder[fd]; id < |cs| && id in h.used && channels[fd] == cs[id] && fds[id] == fd
  }

  ghost predicate PollMatches(p: PollPoller, cs: seq<Channel>, fds: seq<int>, h: History)
    reads p, p.universe
  {
    && p.Valid() && p.reg == h.reg && AreChannels(cs, p.universe, fds) && Holds(p.channels, cs, fds, h)
    && (forall i :: 0 <= i < |cs| ==> (cs[i].index >= 0 <==> i in h.used))
  }

  ghost predicate EPollMatches(e: EPollPoller, cs: seq<Channel>, fds: seq<int>, h: History)
    reads e, e.universe
  {
    && e.Valid() && e.reg == h.reg && AreChannels(cs, e.universe, fds) && Holds(e.channels, cs, fds, h)
    && (forall i :: 0 <= i < |cs| ==> i !in h.used ==> cs[i].index == NEW)
  }

  method StepPoll(p: PollPoller, cs: seq<Channel>, fds: seq<int>, ghost h: History, r: Request)
    requires Legal(h, fds, r) && PollMatches(p, cs, fds, h)
    modifies p, p.universe
    ensures PollMatches(p, cs, fds, Next(h, fds, r))
  {
    hide TableIs;
    match r {
      case Update(id, events) =>
        hide ChannelsAre, Updated;
        p.Update(cs[id], events);
      case Remove(id) =>
        assert p.channels[fds[id]] == cs[id] && Carries(cs[id], p.index, p.reg, fds[id]);
        hide ChannelsAre, Removed;
        p.Remove(cs[id]);
    }
  }

  method StepEPoll(e: EPollPoller, cs: seq<Channel>, fds: seq<int>, ghost h: History, r: Request)
    requires Legal(h, fds, r) && EPollMatches(e, cs, fds, h)
    modifies e, e.universe
    ensures EPollMatches(e, cs, fds, Next(h, fds, r))
  {
    match r {
      case Update(id, events) =>
        e.RegisteredIsNotNew();
        hide MirrorIs, ChannelsAre, Updated;
        e.Update(cs[id], events);
      case Remove(id) =>
        e.EventsAreRecorded(fds[id]);
        hide MirrorIs, ChannelsAre, Removed;
        e.Remove(cs[id]);
    }
  }

  method MakeChannels(fds: seq<int>) returns (cs: seq<Channel>, ghost universe: set<Channel>)
    requires forall i :: 0 <= i < |fds| ==> fds[i] >= 0
    ensures AreChannels(cs, universe, fds) && fresh(universe) && forall i :: 0 <= i < |cs| ==> cs[i].index == -1
  {
    cs, universe := [], {};
    for i := 0 to |fds|
      invariant |cs| == i && fresh(universe)
      invariant forall j :: 0 <= j < i ==> cs[j] in universe && cs[j].fd == fds[j] && cs[j].index == -1
      invariant forall j, k :: 0 <= j < k < i ==> cs[j] != cs[k]
    {
      var c := new Channel(fds[i]);
      cs, universe := cs + [c], universe + {c};
    }
  }

  method RunFrom(p: PollPoller, cp: seq<Channel>, e: EPollPoller, ce: seq<Channel>, fds: seq<int>, ghost h: History, run: seq<Request>)
    requires p.universe !! e.universe && IsLegal(h, fds, run)
    requires PollMatches(p, cp, fds, h) && EPollMatches(e, ce, fds, h)
    modifies p, p.universe, e, e.universe
    ensures PollMatches(p, cp, fds, Final(h, fds, run)) && EPollMatches(e, ce, fds, Final(h, fds, run))
    decreases |run|
  {
    hide PollMatches, EPollMatches, Legal, Next;
    if run != [] {
      StepPoll(p, cp, fds, h, run[0]);
      StepEPoll(e, ce, fds, h, run[0]);
      RunFrom(p, cp, e, ce, fds, Next(h, fds, run[0]), run[1..]);
    }
  }

  /** Any legal sequence of requests, made to both pollers: in the end, and hence at any time, they
      watch the same descriptors for the same events, and those that the last request for each asks for. */
  method RunBoth(fds: seq<int>, run: seq<Request>) returns (p: PollPoller, e: EPollPoller)
    requires (forall i :: 0 <= i < |fds| ==> fds[i] >= 0) && IsLegal(START, fds, run)
    ensures p.Valid() && e.Valid()
    ensures p.Interest() == e.Interest()
    ensures forall fd, events :: (fd, events) in p.Interest() <==> events != 0 && AskedFor(0, fds, run, fd) == events
  {
    var cp, up := MakeChannels(fds);
    var ce, ue := MakeChannels(fds);
    p := new PollPoller(up);
    e := new EPollPoller(ue);
    RunFrom(p, cp, e, ce, fds, START, run);
    p.InterestIsWatched();
    e.InterestIsWatched();
    forall fd, events ensures (fd, events) in p.Interest() <==> events != 0 && AskedFor(0, fds, run, fd) == events {
      WatchedIsAskedFor(fds, run, fd, events);
    }
  }
}
