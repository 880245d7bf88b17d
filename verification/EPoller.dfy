/** netlib/EPoller: a dense table of slots, one for each registered channel, kept in step with the kernel's epoll
    set. A channel remembers the index of its slot; a slot holds the fd, or -fd-1 while the channel is disabled. */
module EPoller {
  datatype Slot = Slot(fd: int, events: int)

  /** The table, the index each registered fd remembers, and the kernel's set with the events watched. */
  datatype Table = Table(slots: seq<Slot>, index: map<int, int>, kernel: map<int, int>)

  function Owner(d: int): int { if d < 0 then -d - 1 else d }

  // epoll_ctl, which fails without effect when the fd is already in the set (ADD) or not in it (MOD, DEL).

  function CtlAdd(kernel: map<int, int>, fd: int, events: int): map<int, int> {
    if fd in kernel then kernel else kernel[fd := events]
  }

  function CtlMod(kernel: map<int, int>, fd: int, events: int): map<int, int> {
    if fd in kernel then kernel[fd := events] else kernel
  }

  function CtlDel(kernel: map<int, int>, fd: int): map<int, int> { kernel - {fd} }

  /** Slots and registered fds are in one-to-one correspondence through the remembered indices. */
  ghost predicate Bijective(slots: seq<Slot>, index: map<int, int>) {
    && (forall fd :: fd in index ==> fd >= 0 && 0 <= index[fd] < |slots| && Owner(slots[index[fd]].fd) == fd)
    && (forall i :: 0 <= i < |slots| ==> Owner(slots[i].fd) in index && index[Owner(slots[i].fd)] == i)
  }

  /** The kernel watches fd exactly if its slot is not disabled, for the events in the slot. */
  predicate Watches(t: Table, fd: int)
    requires fd in t.index ==> 0 <= t.index[fd] < |t.slots|
  {
    if fd in t.index && t.slots[t.index[fd]].fd == fd then
      fd in t.kernel && t.kernel[fd] == t.slots[t.index[fd]].events
    else fd !in t.kernel
  }

  ghost predicate InStep(t: Table) { Bijective(t.slots, t.index) && forall fd :: Watches(t, fd) }

  predicate Disabled(t: Table, fd: int)
    requires fd in t.index && 0 <= t.index[fd] < |t.slots|
  {
    t.slots[t.index[fd]].fd == -fd - 1
  }

  function Update(t: Table, fd: int, events: int): Table
    requires fd in t.index ==> 0 <= t.index[fd] < |t.slots|
  {
    if fd !in t.index then
      Table(t.slots + [Slot(fd, events)], t.index[fd := |t.slots|], CtlAdd(t.kernel, fd, events))
    else
      var i := t.index[fd];
      var d := t.slots[i].fd;
      if events == 0 then t.(slots := t.slots[i := Slot(-fd - 1, events)], kernel := CtlDel(t.kernel, d))
      else t.(slots := t.slots[i := Slot(d, events)], kernel := CtlMod(t.kernel, d, events))
  }

  function Remove(t: Table, fd: int): Table
    requires fd in t.index && 0 <= t.index[fd] < |t.slots|
  {
    var i, last := t.index[fd], |t.slots| - 1;
    if i == last then t.(slots := t.slots[..last], index := t.index - {fd})
    else
      var moved := Owner(t.slots[last].fd);
      t.(slots := t.slots[i := t.slots[last]][..last], index := (t.index - {fd})[moved := i])
  }

  class Channel {
    const fd: int
    var events: int
    var revents: int
    var index: int

    constructor (fd: int)
      ensures this.fd == fd && events == 0 && index == -1
    {
      this.fd := fd;
      events, revents, index := 0, 0, -1;
    }
  }

  class EPoller {
    var pollfds: seq<Slot>
    var channels: map<int, Channel>
    /** The kernel's epoll set. */
    var kernel: map<int, int>
    /** The table these fields and the channels' indices make up. */
    ghost var table: Table

    ghost function Registered(): set<Channel>
      reads this
    {
      set fd | fd in channels :: channels[fd]
    }

    ghost predicate Valid()
      reads this, Registered()
    {
      && table.slots == pollfds && table.kernel == kernel && table.index.Keys == channels.Keys
      && (forall fd :: fd in channels ==> channels[fd].fd == fd && channels[fd].index == table.index[fd])
      && InStep(table)
    }

    constructor ()
      ensures Valid() && channels == map[]
    {
      pollfds, channels, kernel := [], map[], map[];
      table := Table([], map[], map[]);
    }

    method UpdateChannel(channel: Channel)
      requires Valid() && channel.fd >= 0
      requires if channel.index < 0 then channel.fd !in channels
        else channel.fd in channels && channels[channel.fd] == channel
      modifies this, channel`index
      ensures Valid() && channels == old(channels)[channel.fd := channel]
      ensures table == Update(old(table), channel.fd, channel.events)
      ensures old(channel.index) < 0 || (channel.events != 0 && !Disabled(old(table), channel.fd)) ==>
        channel.fd in kernel && kernel[channel.fd] == channel.events
    {
      var fd := channel.fd;
      UpdateInStep(table, fd, channel.events);
      if fd !in table.index || (channel.events != 0 && !Disabled(table, fd)) {
        WatchedFor(table, fd, channel.events);
      }
      hide InStep, Watches, Bijective;
      table := Update(table, fd, channel.events);
      if channel.index < 0 {
        pollfds := pollfds + [Slot(fd, channel.events)];
        channel.index := |pollfds| - 1;
        channels := channels[fd := channel];
        kernel := CtlAdd(kernel, fd, channel.events);
      } else {
        var idx := channel.index;
        var ev := pollfds[idx];
        if channel.events == 0 {
          kernel := CtlDel(kernel, ev.fd);
          pollfds := pollfds[idx := Slot(-fd - 1, channel.events)];
        } else {
          pollfds := pollfds[idx := Slot(ev.fd, channel.events)];
          kernel := CtlMod(kernel, ev.fd, channel.events);
        }
      }
    }

    method RemoveChannel(channel: Channel)
      requires Valid() && channel.fd in channels && channels[channel.fd] == channel
      requires channel.events == 0 && Disabled(table, channel.fd)
      modifies this, Registered()`index
      ensures Valid() && channels == old(channels) - {channel.fd}
      ensures table == Remove(old(table), channel.fd)
    {
      RemoveInStep(table, channel.fd);
      var idx := channel.index;
      channels := channels - {channel.fd};
      if idx == |pollfds| - 1 {
        pollfds := pollfds[..|pollfds| - 1];
      } else {
        var channelAtEnd := pollfds[|pollfds| - 1].fd;
        pollfds := pollfds[idx := pollfds[|pollfds| - 1]][|pollfds| - 1 := pollfds[idx]];
        if channelAtEnd < 0 {
          channelAtEnd := -channelAtEnd - 1;
        }
        channels[channelAtEnd].index := idx;
        pollfds := pollfds[..|pollfds| - 1];
      }
      table := Remove(table, channel.fd);
      assert pollfds == table.slots;
      hide InStep, Watches, Bijective;
    }

    /** Each reported fd has been resolved to its own channel, which has been given the events. */
    ghost predicate Resolved(active: seq<Channel>, ready: seq<Slot>)
      reads this, Registered()
    {
      && |active| == |ready|
      && forall i :: 0 <= i < |active| ==>
           && ready[i].fd in channels && active[i] == channels[ready[i].fd]
           && active[i].fd == ready[i].fd && active[i].revents == ready[i].events
    }

    /** What epoll_wait reports: fds of its set, each once. Each that is ready resolves to its channel, in order. */
    method FillActiveChannels(events: seq<Slot>) returns (active: seq<Channel>)
      requires Valid() && forall i :: 0 <= i < |events| ==> events[i].fd in kernel
      requires forall i, j :: 0 <= i < j < |events| ==> events[i].fd != events[j].fd
      modifies Registered()`revents
      ensures Valid() && Resolved(active, Ready(events))
    {
      hide InStep, Watches, Bijective;
      active := [];
      for i := 0 to |events|
        invariant Valid() && Resolved(active, Ready(events[..i]))
      {
        WatchedRegistered(table, events[i].fd);
        ReadyEarlier(events, i);
        assert events[..i + 1][..i] == events[..i];
        if events[i].events > 0 {
          var channel := channels[events[i].fd];
          channel.revents := events[i].events;
          active := active + [channel];
        }
      }
      assert events[..|events|] == events;
    }
  }

  /** The reported fds that have an event. */
  function Ready(events: seq<Slot>): seq<Slot> {
    if events == [] then []
    else
      var last := |events| - 1;
      Ready(events[..last]) + if events[last].events > 0 then [events[last]] else []
  }

  lemma WatchedRegistered(t: Table, fd: int)
    requires InStep(t) && fd in t.kernel
    ensures fd in t.index
  {
    assert Watches(t, fd);
  }

  /** What is ready before place i is not reported again at i. */
  lemma {:induction false} ReadyBefore(events: seq<Slot>, i: nat, slot: Slot)
    requires i <= |events| && slot in Ready(events[..i])
    ensures exists j :: 0 <= j < i && events[j] == slot
  {
    if i == 0 {
    } else {
      assert events[..i][..i - 1] == events[..i - 1];
      if slot != events[i - 1] {
        ReadyBefore(events, i - 1, slot);
      }
    }
  }

  lemma ReadyEarlier(events: seq<Slot>, i: nat)
    requires i < |events| && forall j, k :: 0 <= j < k < |events| ==> events[j].fd != events[k].fd
    ensures forall slot :: slot in Ready(events[..i]) ==> slot.fd != events[i].fd
  {
    forall slot | slot in Ready(events[..i]) ensures slot.fd != events[i].fd {
      ReadyBefore(events, i, slot);
    }
  }

  lemma UpdateBijective(t: Table, fd: int, events: int)
    requires InStep(t) && fd >= 0
    ensures Bijective(Update(t, fd, events).slots, Update(t, fd, events).index)
  {
    if fd in t.index {
      assert t.slots[t.index[fd]].fd in {fd, -fd - 1};
    }
  }

  /** Registering, changing or disabling a channel. */
  lemma UpdateInStep(t: Table, fd: int, events: int)
    requires InStep(t) && fd >= 0
    ensures InStep(Update(t, fd, events))
  {
    UpdateBijective(t, fd, events);
    var t' := Update(t, fd, events);
    forall x ensures Watches(t', x) {
      assert Watches(t, x) && Watches(t, fd);
      if x in t.index && x != fd && fd in t.index {
        assert t.index[x] != t.index[fd];
      }
    }
  }

  lemma RemoveBijective(t: Table, fd: int)
    requires Bijective(t.slots, t.index) && fd in t.index
    ensures Bijective(Remove(t, fd).slots, Remove(t, fd).index)
    ensures Remove(t, fd).index.Keys == t.index.Keys - {fd}
    ensures forall x :: x in t.index && x != fd ==> Remove(t, fd).slots[Remove(t, fd).index[x]] == t.slots[t.index[x]]
  {
    var t', i, last := Remove(t, fd), t.index[fd], |t.slots| - 1;
    var moved := Owner(t.slots[last].fd);
    assert moved in t.index && t.index[moved] == last;
    forall x | x in t.index && x != fd
      ensures 0 <= t'.index[x] < |t'.slots| && t'.slots[t'.index[x]] == t.slots[t.index[x]]
    {
      assert t.index[x] != i && Owner(t.slots[t.index[x]].fd) == x;
    }
    forall k | 0 <= k < |t'.slots| ensures Owner(t'.slots[k].fd) in t'.index && t'.index[Owner(t'.slots[k].fd)] == k {
      assert Owner(t.slots[k].fd) in t.index && t.index[Owner(t.slots[k].fd)] == k;
    }
  }

  /** Swap-and-pop: the last slot moves into the gap and its channel is told, so no channel loses its slot, and a
      disabled channel leaves the kernel's set as it was. */
  lemma RemoveInStep(t: Table, fd: int)
    requires InStep(t) && fd in t.index && Disabled(t, fd)
    ensures InStep(Remove(t, fd)) && Remove(t, fd).index.Keys == t.index.Keys - {fd}
  {
    RemoveBijective(t, fd);
    hide Remove;
    forall x ensures Watches(Remove(t, fd), x) {
      assert Watches(t, x);
      assert Remove(t, fd).kernel == t.kernel by { KernelUntouched(t, fd); }
    }
  }

  lemma KernelUntouched(t: Table, fd: int)
    requires fd in t.index && 0 <= t.index[fd] < |t.slots|
    ensures Remove(t, fd).kernel == t.kernel
  {
  }

  /** A channel that is new, or not disabled and asks for events, is watched for what it asks for. */
  lemma WatchedFor(t: Table, fd: int, events: int)
    requires InStep(t) && fd >= 0 && (fd !in t.index || (events != 0 && !Disabled(t, fd)))
    ensures fd in Update(t, fd, events).kernel && Update(t, fd, events).kernel[fd] == events
  {
    assert Watches(t, fd);
  }

  /** A channel that was disabled and is enabled again does not come back: its slot keeps the negative number, which
      epoll_ctl rejects. After an update with events, fd is watched if and only if it was new or not disabled. */
  lemma EnabledIffNotDisabled(t: Table, fd: int, events: int)
    requires InStep(t) && fd >= 0 && events != 0
    ensures fd in Update(t, fd, events).kernel <==> fd !in t.index || !Disabled(t, fd)
  {
    assert Watches(t, fd);
  }

  // What holds over every sequence of updates and removals.

  datatype Op = Change(fd: int, events: int) | Drop(fd: int)

  /** Only registered, disabled channels are removed. */
  ghost predicate Legal(t: Table, op: Op)
    requires InStep(t)
  {
    match op
    case Change(fd, _) => fd >= 0
    case Drop(fd) => fd in t.index && Disabled(t, fd)
  }

  ghost function Apply(t: Table, op: Op): (t': Table)
    requires InStep(t) && Legal(t, op)
    ensures InStep(t')
  {
    match op
    case Change(fd, events) => UpdateInStep(t, fd, events); Update(t, fd, events)
    case Drop(fd) => RemoveInStep(t, fd); Remove(t, fd)
  }

  ghost predicate Possible(t: Table, run: seq<Op>)
    requires InStep(t)
    decreases |run|
  {
    run == [] || (Legal(t, run[0]) && Possible(Apply(t, run[0]), run[1..]))
  }

  ghost function After(t: Table, run: seq<Op>): (t': Table)
    requires InStep(t) && Possible(t, run)
    ensures InStep(t')
    decreases |run|
  {
    if run == [] then t else After(Apply(t, run[0]), run[1..])
  }

  /** After any run, the kernel watches exactly the registered fds whose slot is not disabled, and such an fd has that
      slot to itself, so whatever the kernel reports resolves to one channel. */
  lemma ReadyResolves(t: Table, run: seq<Op>, fd: int)
    requires InStep(t) && Possible(t, run)
    ensures var end := After(t, run);
      && (fd in end.index ==> 0 <= end.index[fd] < |end.slots|)
      && (fd in end.kernel <==> fd in end.index && end.slots[end.index[fd]].fd == fd)
      && (fd in end.kernel ==> forall i :: 0 <= i < |end.slots| && Owner(end.slots[i].fd) == fd ==> i == end.index[fd])
  {
    hide After, Possible;
    assert Watches(After(t, run), fd);
  }

  lemma StaysDisabled(t: Table, op: Op, fd: int)
    requires InStep(t) && Legal(t, op) && fd in t.index && Disabled(t, fd) && op != Drop(fd)
    ensures fd in Apply(t, op).index && Disabled(Apply(t, op), fd)
  {
    match op
    case Change(other, events) =>
      if other != fd && other in t.index {
        assert t.index[other] != t.index[fd];
      }
    case Drop(other) => RemoveBijective(t, other);
  }

  /** Once disabled, a channel gets no more events until it has been removed, whatever updates are made. */
  lemma {:induction false} DisabledForGood(t: Table, run: seq<Op>, fd: int)
    requires InStep(t) && Possible(t, run) && fd in t.index && Disabled(t, fd) && Drop(fd) !in run
    ensures fd in After(t, run).index && Disabled(After(t, run), fd) && fd !in After(t, run).kernel
    decreases |run|
  {
    if run == [] {
      assert Watches(t, fd);
    } else {
      StaysDisabled(t, run[0], fd);
      hide Apply, Legal;
      DisabledForGood(Apply(t, run[0]), run[1..], fd);
    }
  }

  // What each channel has asked for.

  /** What becomes of a channel by itself: not registered, watched for some events, or disabled. */
  datatype Watch = Unknown | On(events: int) | Off

  /** The operations on fd decide, and no others: the first update registers it for the events asked for, a later one
      changes the events, or disables it if there are none; nothing but a removal ends that. */
  function Step(w: Watch, op: Op, fd: int): Watch {
    match op
    case Drop(other) => if other == fd then Unknown else w
    case Change(other, events) =>
      if other != fd || w == Off then w
      else if w == Unknown || events != 0 then On(events)
      else Off
  }

  function Fate(w: Watch, run: seq<Op>, fd: int): Watch
    decreases |run|
  {
    if run == [] then w else Fate(Step(w, run[0], fd), run[1..], fd)
  }

  /** What the kernel does for fd. */
  ghost function WatchOf(t: Table, fd: int): Watch
    requires InStep(t)
  {
    assert Watches(t, fd);
    if fd !in t.index then Unknown else if Disabled(t, fd) then Off else On(t.kernel[fd])
  }

  lemma SlotsApart(t: Table, fd: int, other: int)
    requires InStep(t) && fd in t.index && other in t.index && fd != other
    ensures t.index[fd] != t.index[other]
  {
  }

  /** An update does to its own channel what was asked for, and to the others nothing. */
  lemma UpdateWatches(t: Table, fd: int, events: int, x: int)
    requires InStep(t) && fd >= 0
    ensures InStep(Update(t, fd, events))
    ensures WatchOf(Update(t, fd, events), x) == Step(WatchOf(t, x), Change(fd, events), x)
  {
    UpdateInStep(t, fd, events);
    assert Watches(t, x) && Watches(t, fd) && Watches(Update(t, fd, events), x);
    if x in t.index && fd in t.index && x != fd {
      SlotsApart(t, x, fd);
    }
  }

  lemma RemoveWatches(t: Table, fd: int, x: int)
    requires InStep(t) && fd in t.index && Disabled(t, fd)
    ensures InStep(Remove(t, fd))
    ensures WatchOf(Remove(t, fd), x) == Step(WatchOf(t, x), Drop(fd), x)
  {
    RemoveInStep(t, fd);
    RemoveBijective(t, fd);
    KernelUntouched(t, fd);
    hide Remove;
  }

  /** In every run the kernel watches each fd exactly as the operations on that fd alone require: for the events of its
      last update, unless it was disabled. */
  lemma {:induction false} WatchedAsAsked(t: Table, run: seq<Op>, fd: int)
    requires InStep(t) && Possible(t, run)
    ensures WatchOf(After(t, run), fd) == Fate(WatchOf(t, fd), run, fd)
    ensures fd in After(t, run).kernel <==> Fate(WatchOf(t, fd), run, fd).On?
    ensures fd in After(t, run).kernel ==> After(t, run).kernel[fd] == Fate(WatchOf(t, fd), run, fd).events
    decreases |run|
  {
    if run == [] {
      assert Watches(t, fd);
    } else {
      match run[0] {
        case Change(other, events) => UpdateWatches(t, other, events, fd);
        case Drop(other) => RemoveWatches(t, other, fd);
      }
      hide InStep, WatchOf, Update, Remove, Step;
      WatchedAsAsked(Apply(t, run[0]), run[1..], fd);
    }
  }
}
