/** Channels, and the epoll poller that mirrors their interest in the kernel. */
module Pollers {

  /** The low byte of an epoll event mask: all the flags the code looks at. */
  type Events = bv8

  const EPOLLIN: Events := 1
  const EPOLLPRI: Events := 2
  const EPOLLOUT: Events := 4
  const EPOLLERR: Events := 8
  const EPOLLHUP: Events := 16

  const NONE_EVENT: Events := 0
  const READ_EVENT: Events := EPOLLIN | EPOLLPRI
  const WRITE_EVENT: Events := EPOLLOUT

  /** kNew, kAdded, kDeleted. */
  datatype Index = New | Added | Deleted

  datatype CtlOp = Add | Mod | Del

  function WithBits(events: Events, bits: Events): Events { events | bits }
  function WithoutBits(events: Events, bits: Events): Events { events & !bits }
  predicate HasBits(events: Events, bits: Events) { events & bits != 0 }

  /** Setting and clearing one interest works, and leaves the other one alone. */
  lemma InterestBits(e: Events)
    ensures HasBits(WithBits(e, READ_EVENT), READ_EVENT) && !HasBits(WithoutBits(e, READ_EVENT), READ_EVENT)
    ensures HasBits(WithBits(e, WRITE_EVENT), WRITE_EVENT) && !HasBits(WithoutBits(e, WRITE_EVENT), WRITE_EVENT)
    ensures HasBits(WithBits(e, WRITE_EVENT), READ_EVENT) == HasBits(e, READ_EVENT)
    ensures HasBits(WithoutBits(e, WRITE_EVENT), READ_EVENT) == HasBits(e, READ_EVENT)
    ensures HasBits(WithBits(e, READ_EVENT), WRITE_EVENT) == HasBits(e, WRITE_EVENT)
    ensures HasBits(WithoutBits(e, READ_EVENT), WRITE_EVENT) == HasBits(e, WRITE_EVENT)
    ensures !HasBits(NONE_EVENT, READ_EVENT) && !HasBits(NONE_EVENT, WRITE_EVENT)
  {
  }

  /** Read interest is normal and urgent data together, and no more; write interest is room to write. */
  lemma EventBits(e: Events)
    ensures HasBits(WithBits(e, READ_EVENT), EPOLLIN) && HasBits(WithBits(e, READ_EVENT), EPOLLPRI)
    ensures WithBits(e, READ_EVENT) != NONE_EVENT && WithBits(e, WRITE_EVENT) != NONE_EVENT
    ensures !HasBits(WithoutBits(e, READ_EVENT), EPOLLIN) && !HasBits(WithoutBits(e, READ_EVENT), EPOLLPRI)
    ensures HasBits(WithBits(e, WRITE_EVENT), EPOLLOUT) && !HasBits(WithoutBits(e, WRITE_EVENT), EPOLLOUT)
    ensures HasBits(e, EPOLLERR) ==
            HasBits(WithBits(WithBits(e, READ_EVENT), WRITE_EVENT), EPOLLERR) ==
            HasBits(WithoutBits(WithoutBits(e, READ_EVENT), WRITE_EVENT), EPOLLERR)
    ensures HasBits(e, EPOLLHUP) ==
            HasBits(WithBits(WithBits(e, READ_EVENT), WRITE_EVENT), EPOLLHUP) ==
            HasBits(WithoutBits(WithoutBits(e, READ_EVENT), WRITE_EVENT), EPOLLHUP)
    ensures [EPOLLIN, EPOLLPRI, EPOLLOUT, EPOLLERR, EPOLLHUP] == [1, 2, 4, 8, 16]
  {
  }

  class Channel {
    const fd: int
    var events: Events
    var revents: Events
    var index: Index

    constructor (fd: int)
      ensures this.fd == fd && events == NONE_EVENT && index == New
    {
      this.fd := fd;
      events, revents, index := 0, 0, New;
    }

    predicate IsNoneEvent() reads this { events == NONE_EVENT }
    predicate IsWriting() reads this { HasBits(events, WRITE_EVENT) }
    predicate IsReading() reads this { HasBits(events, READ_EVENT) }

    method EnableReading(poller: EpollPoller)
      requires poller.Valid() && poller.Owns(this)
      modifies this, poller
      ensures poller.Kept() && poller.Valid() && poller.owner == old(poller.owner)
      ensures events == WithBits(old(events), READ_EVENT)
      ensures index == if old(index) == Added && IsNoneEvent() then Deleted else Added
      ensures HasBits(events, EPOLLIN) && HasBits(events, EPOLLPRI) && !IsNoneEvent()
    {
      EventBits(events);
      ghost var before := events;
      events := WithBits(events, READ_EVENT);
      poller.UpdateChannel(this, before);
    }

    method DisableReading(poller: EpollPoller)
      requires poller.Valid() && poller.Owns(this)
      modifies this, poller
      ensures poller.Kept() && poller.Valid() && poller.owner == old(poller.owner)
      ensures events == WithoutBits(old(events), READ_EVENT)
      ensures index == if old(index) == Added && IsNoneEvent() then Deleted else Added
      ensures !HasBits(events, EPOLLIN) && !HasBits(events, EPOLLPRI)
    {
      EventBits(events);
      ghost var before := events;
      events := WithoutBits(events, READ_EVENT);
      poller.UpdateChannel(this, before);
    }

    method EnableWriting(poller: EpollPoller)
      requires poller.Valid() && poller.Owns(this)
      modifies this, poller
      ensures poller.Kept() && poller.Valid() && poller.owner == old(poller.owner)
      ensures events == WithBits(old(events), WRITE_EVENT)
      ensures index == if old(index) == Added && IsNoneEvent() then Deleted else Added
      ensures HasBits(events, EPOLLOUT) && !IsNoneEvent()
    {
      EventBits(events);
      ghost var before := events;
      events := WithBits(events, WRITE_EVENT);
      poller.UpdateChannel(this, before);
    }

    method DisableWriting(poller: EpollPoller)
      requires poller.Valid() && poller.Owns(this)
      modifies this, poller
      ensures poller.Kept() && poller.Valid() && poller.owner == old(poller.owner)
      ensures events == WithoutBits(old(events), WRITE_EVENT)
      ensures index == if old(index) == Added && IsNoneEvent() then Deleted else Added
      ensures !HasBits(events, EPOLLOUT)
    {
      EventBits(events);
      ghost var before := events;
      events := WithoutBits(events, WRITE_EVENT);
      poller.UpdateChannel(this, before);
    }

    method DisableAll(poller: EpollPoller)
      requires poller.Valid() && poller.Owns(this)
      modifies this, poller
      ensures poller.Kept() && poller.Valid() && poller.owner == old(poller.owner)
      ensures events == NONE_EVENT && index == if old(index) == Added then Deleted else Added
    {
      ghost var before := events;
      events := NONE_EVENT;
      poller.UpdateChannel(this, before);
    }

    method Remove(poller: EpollPoller)
      requires poller.Valid() && poller.Owns(this) && IsNoneEvent()
      modifies this, poller
      ensures poller.Kept() && poller.Valid() && poller.owner == old(poller.owner)
      ensures events == old(events) && index == New
    {
      poller.RemoveChannel(this);
    }
  }

  class EpollPoller {
    var channels: map<int, Channel>
    var kernel: map<int, Events>            // the epoll instance: fd -> events
    var failures: nat                     // epoll_ctl calls the kernel refused
    ghost var owner: map<int, Channel>    // every live channel of this loop, by its fd

    ghost predicate Owns(c: Channel)
      reads this
    {
      c.fd in owner && owner[c.fd] == c
    }

    /** What the poller's tables say of one channel, and the kernel with them. */
    ghost predicate Mirrors(c: Channel, events: Events)
      reads this, c
    {
      && (c.index == New <==> c.fd !in channels)
      && (c.fd in channels ==> channels[c.fd] == c)
      && (c.index == Added <==> c.fd in kernel)
      && (c.fd in kernel ==> kernel[c.fd] == events)
    }

    ghost predicate ValidExcept(x: Channel?)
      reads this, owner.Values
    {
      && channels.Keys <= owner.Keys && kernel.Keys <= owner.Keys
      && forall fd <- owner :: owner[fd].fd == fd && (owner[fd] != x ==> Mirrors(owner[fd], owner[fd].events))
    }

    ghost predicate Valid()
      reads this, owner.Values
    {
      ValidExcept(null)
    }

    /** No epoll_ctl call was refused. */
    twostate predicate Kept()
      reads this
    {
      failures == old(failures)
    }

    constructor ()
      ensures Valid() && owner == map[] && failures == 0
    {
      channels, kernel, failures := map[], map[], 0;
      owner := map[];
    }

    /** A channel object comes to life on an fd no live channel has. */
    method NewChannel(fd: int) returns (c: Channel)
      requires Valid() && fd !in owner
      modifies this`owner
      ensures Valid() && fresh(c) && c.fd == fd && c.index == New && c.IsNoneEvent()
      ensures owner == old(owner)[fd := c]
    {
      c := new Channel(fd);
      owner := owner[fd := c];
    }

    /** epoll_ctl: ADD wants an unregistered fd, MOD and DEL a registered one. */
    method EpollCtl(op: CtlOp, fd: int, events: Events) returns (ok: bool)
      modifies this`kernel
      ensures ok == if op.Add? then fd !in old(kernel) else fd in old(kernel)
      ensures kernel == if !ok then old(kernel) else if op.Del? then old(kernel) - {fd} else old(kernel)[fd := events]
    {
      ok := if op.Add? then fd !in kernel else fd in kernel;
      if ok {
        kernel := if op.Del? then kernel - {fd} else kernel[fd := events];
      }
    }

    method Update(op: CtlOp, c: Channel)
      modifies this`kernel, this`failures
      ensures var ok := if op.Add? then c.fd !in old(kernel) else c.fd in old(kernel);
              && failures == old(failures) + (if ok then 0 else 1)
              && kernel == if !ok then old(kernel)
                           else if op.Del? then old(kernel) - {c.fd} else old(kernel)[c.fd := c.events]
    {
      var ok := EpollCtl(op, c.fd, c.events);
      if !ok {
        failures := failures + 1;
      }
    }

    /** Changes that touch one channel alone leave the mirror of every other one as it is. */
    twostate lemma OthersKept(c: Channel)
      requires old(Owns(c)) && old(ValidExcept(c)) && owner == old(owner)
      requires SameBut(channels, old(channels), c.fd) && SameBut(kernel, old(kernel), c.fd)
      requires forall d <- old(owner.Values) :: d != c ==> d.index == old(d.index) && d.events == old(d.events)
      ensures ValidExcept(c)
    {
      forall fd | fd in owner && owner[fd] != c
        ensures Mirrors(owner[fd], owner[fd].events)
      {
        assert old(Mirrors(owner[fd], owner[fd].events));
        assert owner[fd] in old(owner.Values) && owner[fd].fd == fd != c.fd;
      }
      forall fd | fd in channels || fd in kernel
        ensures fd in owner
      {
        if fd != c.fd {
          assert fd in old(channels) || fd in old(kernel);
        }
      }
    }

    lemma Restored(c: Channel)
      requires Owns(c) && ValidExcept(c) && Mirrors(c, c.events)
      ensures Valid()
    {
    }

    lemma KnownMirror(c: Channel)
      requires Owns(c) && Valid()
      ensures ValidExcept(c) && Mirrors(c, c.events)
    {
    }

    /** Called after the channel changed its events, so for it alone the kernel may be behind. */
    method UpdateChannel(c: Channel, ghost before: Events)
      requires Owns(c) && ValidExcept(c) && Mirrors(c, before)
      modifies this`channels, this`kernel, this`failures, c`index
      ensures Valid() && Kept() && c.index != New
      ensures c.index == if old(c.index) == Added && c.IsNoneEvent() then Deleted else Added
    {
      hide ValidExcept;
      if c.index == New || c.index == Deleted {
        if c.index == New {
          assert c.fd !in channels;
          channels := channels[c.fd := c];
        } else {
          assert c.fd in channels && channels[c.fd] == c;
        }
        c.index := Added;
        Update(Add, c);
      } else {
        assert c.fd in channels && channels[c.fd] == c && c.index == Added;
        if c.IsNoneEvent() {
          Update(Del, c);
          c.index := Deleted;
        } else {
          Update(Mod, c);
        }
      }
      OthersKept(c);
      Restored(c);
    }

    method RemoveChannel(c: Channel)
      requires Owns(c) && Valid()
      modifies this`channels, this`kernel, this`failures, c`index
      ensures Valid() && Kept() && c.index == New && !HasChannel(c)
    {
      hide ValidExcept;
      KnownMirror(c);
      channels := channels - {c.fd};
      if c.index == Added {
        Update(Del, c);
      }
      c.index := New;
      OthersKept(c);
      Restored(c);
    }

    predicate HasChannel(c: Channel)
      reads this
    {
      c.fd in channels && channels[c.fd] == c
    }

    /** A channel that left the poller may die, and its fd be closed and given to another one. */
    method Forget(c: Channel)
      requires Valid() && Owns(c) && c.index == New
      modifies this`owner
      ensures Valid() && owner == old(owner) - {c.fd}
    {
      owner := owner - {c.fd};
    }

    /** The mirror, read as an equation: the kernel watches exactly the added channels, for exactly their events. */
    lemma KernelIsMirror()
      requires Valid()
      ensures kernel == map fd | fd in owner && owner[fd].index == Added :: owner[fd].events
      ensures channels == map fd | fd in owner && owner[fd].index != New :: owner[fd]
    {
      assert forall fd <- owner :: Mirrors(owner[fd], owner[fd].events);
      assert forall fd :: fd in kernel <==> fd in owner && owner[fd].index == Added;
      assert forall fd :: fd in channels <==> fd in owner && owner[fd].index != New;
      assert forall fd <- kernel :: kernel[fd] == owner[fd].events;
      assert forall fd <- channels :: channels[fd] == owner[fd];
    }

    /** Every fd epoll_wait reports finds its channel, which is handed the events last reported for it. */
    method FillActiveChannels(reported: seq<(int, Events)>) returns (active: seq<Channel>)
      requires Valid() && forall e <- reported :: e.0 in kernel
      modifies owner.Values`revents
      ensures Valid() && kernel == old(kernel)
      ensures |active| == |reported|
      ensures forall i :: 0 <= i < |reported| ==> active[i].fd == reported[i].0 && active[i].index == Added
      ensures forall fd <- owner :: owner[fd].revents == Latest(reported, fd, old(owner[fd].revents))
    {
      hide ValidExcept, Latest;
      active := [];
      var i := 0;
      forall e | e in reported
        ensures e.0 in owner && e.0 in channels && channels[e.0] == owner[e.0]
        ensures owner[e.0].fd == e.0 && owner[e.0].index == Added
      {
        Reported(e.0);
      }
      Distinct();
      LatestNone(reported);
      while i < |reported|
        invariant 0 <= i <= |reported| && |active| == i
        invariant forall j :: 0 <= j < i ==> active[j].fd == reported[j].0 && active[j].index == Added
        invariant forall fd <- owner :: owner[fd].revents == Latest(reported[..i], fd, old(owner[fd].revents))
      {
        var fd := reported[i].0;
        assert reported[i] in reported;
        LatestNext(reported, i);
        if fd in channels {
          var c := channels[fd];
          c.revents := reported[i].1;
          active := active + [c];
        }
        i := i + 1;
      }
      assert reported[..i] == reported;
      MirrorStays();
    }

    lemma Distinct()
      requires Valid()
      ensures forall fd <- owner :: owner[fd].fd == fd
    {
    }

    /** The mirror does not depend on what was reported. */
    twostate lemma MirrorStays()
      requires old(Valid()) && owner == old(owner) && channels == old(channels) && kernel == old(kernel)
      requires forall c <- owner.Values :: old(allocated(c)) && c.events == old(c.events) && c.index == old(c.index)
      ensures Valid()
    {
      forall fd | fd in owner
        ensures owner[fd].fd == fd && Mirrors(owner[fd], owner[fd].events)
      {
        assert owner[fd] in owner.Values && old(Mirrors(owner[fd], owner[fd].events));
      }
    }

    /** What the kernel watches is in the poller's table. */
    lemma Reported(fd: int)
      requires Valid() && fd in kernel
      ensures fd in owner && fd in channels && channels[fd] == owner[fd]
      ensures owner[fd].fd == fd && owner[fd].index == Added
    {
      assert Mirrors(owner[fd], owner[fd].events);
    }
  }

  /** The events last reported for an fd, or those of before. */
  function Latest(reported: seq<(int, Events)>, fd: int, before: Events): Events {
    if reported == [] then before
    else if reported[|reported| - 1].0 == fd then reported[|reported| - 1].1
    else Latest(reported[..|reported| - 1], fd, before)
  }

  lemma LatestNone(reported: seq<(int, Events)>)
    ensures forall fd, before :: Latest(reported[..0], fd, before) == before
  {
  }

  lemma LatestNext(reported: seq<(int, Events)>, i: nat)
    requires i < |reported|
    ensures forall fd, before :: Latest(reported[..i + 1], fd, before) ==
              if reported[i].0 == fd then reported[i].1 else Latest(reported[..i], fd, before)
  {
    var front := reported[..i + 1];
    assert front[..i] == reported[..i] && front[i] == reported[i];
    assert forall fd, before :: Latest(front, fd, before) ==
             if front[|front| - 1].0 == fd then front[|front| - 1].1 else Latest(front[..|front| - 1], fd, before);
  }

  /** When an fd is reported at most once, as epoll_wait does, that is what is reported for it. */
  lemma {:induction false} LatestIsReported(reported: seq<(int, Events)>, i: nat, before: Events)
    requires i < |reported| && forall j :: 0 <= j < |reported| && j != i ==> reported[j].0 != reported[i].0
    ensures Latest(reported, reported[i].0, before) == reported[i].1
    decreases |reported|
  {
    var front := reported[..|reported| - 1];
    if i < |front| {
      assert front[i] == reported[i];
      LatestIsReported(front, i, before);
    }
  }

  /** Nothing but the entry of one key differs. */
  ghost predicate SameBut<V>(m: map<int, V>, n: map<int, V>, key: int) {
    forall k :: k != key ==> (k in m <==> k in n) && (k in m && k in n ==> m[k] == n[k])
  }

  /** What happens to an fd: a channel is made for it, changes its interest, leaves the poller, and dies. */
  datatype PollOp =
    | Create | EnableReading | DisableReading | EnableWriting | DisableWriting | DisableAll | Remove | Close

  /** What a live channel watches, and what the poller knows of it. */
  datatype Watch = Watch(events: Events, index: Index)

  /** Changing the interest of a channel registers it, or takes one without interest out of the kernel. */
  function Changed(x: Watch, events: Events): Watch {
    Watch(events, if x.index == Added && events == NONE_EVENT then Deleted else Added)
  }

  function AfterOp(x: Watch, op: PollOp): Watch {
    match op
    case EnableReading => Changed(x, WithBits(x.events, READ_EVENT))
    case DisableReading => Changed(x, WithoutBits(x.events, READ_EVENT))
    case EnableWriting => Changed(x, WithBits(x.events, WRITE_EVENT))
    case DisableWriting => Changed(x, WithoutBits(x.events, WRITE_EVENT))
    case DisableAll => Changed(x, NONE_EVENT)
    case Remove => if x.events == NONE_EVENT then Watch(x.events, New) else x
    case _ => x
  }

  /** What becomes of the live channels in a history, in terms of its operations alone. */
  function After(w: map<int, Watch>, ops: seq<(int, PollOp)>): map<int, Watch> {
    if ops == [] then w else
      var m := After(w, ops[..|ops| - 1]);
      var (fd, op) := ops[|ops| - 1];
      if op.Create? then if fd in m then m else m[fd := Watch(NONE_EVENT, New)]
      else if fd !in m then m
      else if op.Close? then if m[fd].index == New then m - {fd} else m
      else m[fd := AfterOp(m[fd], op)]
  }

  ghost function Watched(live: map<int, Channel>): map<int, Watch>
    reads live.Values
  {
    map fd <- live :: Watch(live[fd].events, live[fd].index)
  }

  lemma AfterNext(w: map<int, Watch>, ops: seq<(int, PollOp)>, i: nat)
    requires i < |ops|
    ensures var m := After(w, ops[..i]); var (fd, op) := ops[i];
            After(w, ops[..i + 1]) ==
            if op.Create? then if fd in m then m else m[fd := Watch(NONE_EVENT, New)]
            else if fd !in m then m
            else if op.Close? then if m[fd].index == New then m - {fd} else m
            else m[fd := AfterOp(m[fd], op)]
  {
    assert ops[..i + 1][..i] == ops[..i] && ops[..i + 1][i] == ops[i];
  }

  /**
   Any history of channels on any fds, which may be used again once their channel is gone: the mirror
   holds, the kernel refused nothing, and what it watches in the end is what the history comes to. An fd
   in use is not given out, a channel is only removed without interest, and only dies when it is out of
   the poller.
   */
  method RunOps(poller: EpollPoller, ops: seq<(int, PollOp)>, before: map<int, Channel>)
    returns (live: map<int, Channel>)
    requires poller.Valid() && before == poller.owner
    modifies poller, poller.owner.Values
    ensures poller.Valid() && poller.failures == old(poller.failures) && live == poller.owner
    ensures forall fd <- live :: (fd in before && live[fd] == before[fd]) || fresh(live[fd])
    ensures Watched(live) == After(old(Watched(before)), ops)
    ensures var w := After(old(Watched(before)), ops);
            poller.kernel == map fd | fd in w && w[fd].index == Added :: w[fd].events
  {
    live := before;
    var i := 0;
    ghost var start := Watched(live);
    while i < |ops|
      invariant 0 <= i <= |ops|
      invariant poller.Valid() && poller.failures == old(poller.failures) && live == poller.owner
      invariant forall fd <- live :: (fd in before && live[fd] == before[fd]) || fresh(live[fd])
      invariant Watched(live) == After(start, ops[..i])
    {
      hide Watched, After, AfterOp;
      AfterNext(start, ops, i);
      assert ops[i].0 in live ==> fresh(live[ops[i].0]) || before[ops[i].0] in before.Values;
      live := RunOp(poller, ops[i].0, ops[i].1, live);
      i := i + 1;
    }
    assert ops[..i] == ops;
    KernelWatches(poller);
  }

  lemma KernelWatches(poller: EpollPoller)
    requires poller.Valid()
    ensures var w := Watched(poller.owner);
            poller.kernel == map fd | fd in w && w[fd].index == Added :: w[fd].events
  {
    poller.KernelIsMirror();
  }

  method RunOp(poller: EpollPoller, fd: int, op: PollOp, live: map<int, Channel>) returns (after: map<int, Channel>)
    requires poller.Valid() && live == poller.owner
    modifies poller, if fd in live then {live[fd]} else {}
    ensures poller.Valid() && poller.failures == old(poller.failures) && after == poller.owner
    ensures forall k <- after :: (k in live && after[k] == live[k]) || fresh(after[k])
    ensures var m := old(Watched(live));
            Watched(after) ==
            if op.Create? then if fd in m then m else m[fd := Watch(NONE_EVENT, New)]
            else if fd !in m then m
            else if op.Close? then if m[fd].index == New then m - {fd} else m
            else m[fd := AfterOp(m[fd], op)]
  {
    hide AfterOp;
    after := live;
    if op.Create? {
      if fd !in live {
        var c := poller.NewChannel(fd);
        after := live[fd := c];
      }
    } else if fd in live {
      if op.Close? {
        if live[fd].index == New {
          OwnsLive(poller, fd);
          poller.Forget(live[fd]);
          after := live - {fd};
        }
      } else {
        RunInterestOp(poller, fd, op, live);
      }
    }
  }

  lemma OwnsLive(poller: EpollPoller, fd: int)
    requires poller.Valid() && fd in poller.owner
    ensures poller.Owns(poller.owner[fd])
  {
  }

  method RunInterestOp(poller: EpollPoller, fd: int, op: PollOp, live: map<int, Channel>)
    requires poller.Valid() && live == poller.owner && fd in live
    modifies poller, live[fd]
    ensures poller.Valid() && poller.failures == old(poller.failures) && poller.owner == live
    ensures Watched(live) == old(Watched(live))[fd := AfterOp(old(Watched(live))[fd], op)]
  {
    var c := live[fd];
    OwnsLive(poller, fd);
    poller.Distinct();
    ghost var w := Watched(live);
    ChangeInterest(poller, c, op);
    forall k | k in live && k != fd
      ensures Watch(live[k].events, live[k].index) == w[k]
    {
      assert live[k].fd == k != c.fd;
    }
    hide AfterOp;
    assert Watched(live) == w[fd := Watch(c.events, c.index)];
  }

  method ChangeInterest(poller: EpollPoller, c: Channel, op: PollOp)
    requires poller.Valid() && poller.Owns(c)
    modifies c, poller
    ensures poller.Valid() && poller.failures == old(poller.failures) && poller.owner == old(poller.owner)
    ensures Watch(c.events, c.index) == AfterOp(Watch(old(c.events), old(c.index)), op)
  {
    match op
    case EnableReading => c.EnableReading(poller);
    case DisableReading => c.DisableReading(poller);
    case EnableWriting => c.EnableWriting(poller);
    case DisableWriting => c.DisableWriting(poller);
    case DisableAll => c.DisableAll(poller);
    case Remove =>
      if c.IsNoneEvent() {
        c.Remove(poller);
      }
    case _ =>
  }
}
