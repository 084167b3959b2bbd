/**
 The channels of one event loop and their poller (net/Channel.h, net/Epoller.cpp),
 with the kernel's interest table beside them.
 */
module Epollers {
  import opened Registration
  import opened Sequences

  class Channel {
    const fd: int
    var events: Mask
    var state: ChannelState
    var failures: nat

    constructor (fd: int)
      ensures this.fd == fd && events == NONE && state == NEW && failures == 0
    {
      this.fd, events, state, failures := fd, NONE, NEW, 0;
    }

    predicate HasWrite()
      reads this
    {
      events & WRITE != NONE
    }

    method EnableReading(e: Epoller)
      requires e.Valid() && this in e.all
      modifies this, e
      ensures e.Moved(this, Op.EnableReading)
    {
      events := events | READ;
      e.UpdateChannel(this);
    }

    method DisableReading(e: Epoller)
      requires e.Valid() && this in e.all
      modifies this, e
      ensures e.Moved(this, Op.DisableReading)
    {
      events := events & !READ;
      e.UpdateChannel(this);
    }

    method EnableWriting(e: Epoller)
      requires e.Valid() && this in e.all
      modifies this, e
      ensures e.Moved(this, Op.EnableWriting)
    {
      events := events | WRITE;
      e.UpdateChannel(this);
    }

    method DisableWriting(e: Epoller)
      requires e.Valid() && this in e.all
      modifies this, e
      ensures e.Moved(this, Op.DisableWriting)
    {
      events := events & !WRITE;
      e.UpdateChannel(this);
    }

    method DisableAll(ghost e: Epoller)
      requires e.Valid() && this in e.all
      modifies this
      ensures e.Moved(this, Op.DisableAll)
    {
      events := NONE;
    }

    method Remove(e: Epoller)
      requires e.Valid() && this in e.all
      modifies this, e
      ensures e.Moved(this, Op.Remove)
    {
      e.RemoveChannel(this);
    }
  }

  class Epoller {
    var channels: map<int, Channel>
    /** The channels that belong to this poller, registered or not. */
    ghost var all: set<Channel>
    var kernel: map<int, Mask>

    ghost predicate Valid()
      reads this
    {
      && (forall c, d :: c in all && d in all && c.fd == d.fd ==> c == d)
      && (forall fd :: fd in channels ==> channels[fd] in all && channels[fd].fd == fd)
    }

    function ViewOf(c: Channel): Reg
      reads this, c
    {
      Reg(c.events, c.state, c.fd in channels, if c.fd in kernel then Some(kernel[c.fd]) else None, c.failures)
    }

    /** Between the two states `c` has made the step `op` and every other channel has stayed as it was. */
    twostate predicate Moved(c: Channel, op: Op)
      reads this, all, c
    {
      && Valid() && all == old(all)
      && ViewOf(c) == After(old(ViewOf(c)), op)
      && forall d :: d in all && d != c ==> ViewOf(d) == old(ViewOf(d))
    }

    constructor ()
      ensures Valid() && all == {} && channels == map[] && kernel == map[]
    {
      channels, all, kernel := map[], {}, map[];
    }

    /** A new channel of the loop, not yet registered. */
    ghost method Adopt(c: Channel)
      requires Valid() && c.fd !in kernel && forall d :: d in all ==> d.fd != c.fd
      modifies this`all
      ensures Valid() && all == old(all) + {c}
      ensures c.fd !in channels
    {
      all := all + {c};
    }

    /** `epoll_ctl`; the kernel turns an impossible request down. */
    method ControlEpoll(operation: Operation, c: Channel)
      modifies this`kernel, c`failures
      ensures ViewOf(c) == EpollCtl(old(ViewOf(c)), operation)
      ensures forall fd :: fd != c.fd ==>
        (fd in kernel <==> fd in old(kernel)) && (fd in kernel ==> kernel[fd] == old(kernel)[fd])
    {
      var legal := Legal(ViewOf(c).kernel, operation);
      if !legal {
        c.failures := c.failures + 1;
      } else if operation == CtlDel {
        kernel := kernel - {c.fd};
      } else {
        kernel := kernel[c.fd := c.events];
      }
    }

    method UpdateChannel(c: Channel)
      requires Valid() && c in all
      modifies this`channels, this`kernel, c`state, c`failures
      ensures Valid()
      ensures ViewOf(c) == Updated(old(ViewOf(c)))
      ensures forall d :: d in all && d != c ==> ViewOf(d) == old(ViewOf(d))
    {
      if c.state == NEW || c.state == DELETED {
        channels := channels[c.fd := c];
        c.state := ADDED;
        ControlEpoll(CtlAdd, c);
      } else if c.events == NONE {
        ControlEpoll(CtlDel, c);
        c.state := DELETED;
      } else {
        ControlEpoll(CtlMod, c);
      }
    }

    method RemoveChannel(c: Channel)
      requires Valid() && c in all
      modifies this`channels, this`kernel, c`state, c`failures
      ensures Valid()
      ensures ViewOf(c) == Removed(old(ViewOf(c)))
      ensures forall d :: d in all && d != c ==> ViewOf(d) == old(ViewOf(d))
    {
      channels := channels - {c.fd};
      if c.state == ADDED {
        ControlEpoll(CtlDel, c);
      }
      c.state := NEW;
    }
  }

  method Perform(e: Epoller, c: Channel, op: Op)
    requires e.Valid() && c in e.all
    modifies c, e
    ensures e.Moved(c, op)
  {
    match op
    case EnableReading => c.EnableReading(e);
    case DisableReading => c.DisableReading(e);
    case EnableWriting => c.EnableWriting(e);
    case DisableWriting => c.DisableWriting(e);
    case DisableAll => c.DisableAll(e);
    case Remove => c.Remove(e);
  }

  /** The operations of the schedule that concern channel `i`. */
  function OpsOf(schedule: seq<(nat, Op)>, i: nat): seq<Op> {
    if schedule == [] then
      []
    else
      var last := schedule[|schedule| - 1];
      OpsOf(schedule[..|schedule| - 1], i) + if last.0 == i then [last.1] else []
  }

  lemma ScheduleStep(schedule: seq<(nat, Op)>, k: nat, i: nat)
    requires k < |schedule|
    ensures AfterAll(OpsOf(schedule[..k + 1], i)) ==
      var before := AfterAll(OpsOf(schedule[..k], i));
      if schedule[k].0 == i then After(before, schedule[k].1) else before
  {
    assert schedule[..k + 1][..k] == schedule[..k];
    var ops := OpsOf(schedule[..k], i);
    assert (ops + [schedule[k].1])[..|ops|] == ops;
    assert ops + [] == ops;
  }

  method CreateChannels(fds: seq<int>) returns (e: Epoller, cs: seq<Channel>)
    requires forall i, j :: 0 <= i < j < |fds| ==> fds[i] != fds[j]
    ensures fresh(e) && e.Valid() && |cs| == |fds|
    ensures forall i :: 0 <= i < |cs| ==> cs[i] in e.all && fresh(cs[i]) && cs[i].fd == fds[i]
    ensures forall i :: 0 <= i < |cs| ==> e.ViewOf(cs[i]) == UNREGISTERED
  {
    e := new Epoller();
    cs := [];
    for i := 0 to |fds|
      invariant fresh(e) && e.Valid() && e.kernel == map[] && e.channels == map[]
      invariant |cs| == i && e.all == set c | c in cs
      invariant forall j :: 0 <= j < i ==> fresh(cs[j]) && cs[j].fd == fds[j]
      invariant forall j :: 0 <= j < i ==> e.ViewOf(cs[j]) == UNREGISTERED
    {
      var c := new Channel(fds[i]);
      e.Adopt(c);
      cs := cs + [c];
    }
  }

  /**
   Channels with different descriptors do not disturb each other: whatever the
   interleaving of their operations, each ends up exactly where its own
   operations alone would have taken it.
   */
  method Drive(fds: seq<int>, schedule: seq<(nat, Op)>) returns (regs: seq<Reg>)
    requires forall i, j :: 0 <= i < j < |fds| ==> fds[i] != fds[j]
    requires forall k :: 0 <= k < |schedule| ==> schedule[k].0 < |fds|
    ensures |regs| == |fds|
    ensures forall i :: 0 <= i < |fds| ==> regs[i] == AfterAll(OpsOf(schedule, i))
  {
    var e, cs := CreateChannels(fds);
    for k := 0 to |schedule|
      invariant e.Valid() && fresh(e)
      invariant forall i :: 0 <= i < |cs| ==> cs[i] in e.all && fresh(cs[i]) && cs[i].fd == fds[i]
      invariant forall i :: 0 <= i < |cs| ==> e.ViewOf(cs[i]) == AfterAll(OpsOf(schedule[..k], i))
    {
      var (who, op) := schedule[k];
      Perform(e, cs[who], op);
      forall i | 0 <= i < |cs|
        ensures e.ViewOf(cs[i]) == AfterAll(OpsOf(schedule[..k + 1], i))
      {
        ScheduleStep(schedule, k, i);
        assert i != who ==> cs[i] != cs[who];
      }
    }
    assert schedule[..|schedule|] == schedule;
    regs := seq(|cs|, i requires 0 <= i < |cs| reads e, set c | c in cs => e.ViewOf(cs[i]));
  }
}
