/** Channels and their registration with the poller: the poller's set, the kernel's
    interest list and the channels' masks. */
module Channels {
  /** The bits of an event mask; a mask is the set of its bits. */
  datatype Flag = EPOLLIN | EPOLLPRI | EPOLLOUT | EPOLLERR | EPOLLHUP | EPOLLRDHUP
  type Events = set<Flag>

  const NONE_EVENT: Events := {}
  const READ_EVENT: Events := {EPOLLIN, EPOLLPRI}
  const WRITE_EVENT: Events := {EPOLLOUT}

  // which callbacks a ready channel dispatches, in this order: close, read, write
  predicate HangsUp(revents: Events) { EPOLLHUP in revents && EPOLLIN !in revents }

  predicate Reads(revents: Events): (r: bool)
    ensures r <==> EPOLLIN in revents || EPOLLPRI in revents || EPOLLRDHUP in revents
  {
    var input := revents * {EPOLLIN, EPOLLPRI, EPOLLRDHUP};
    assert forall f | f in revents :: f in input <==> f == EPOLLIN || f == EPOLLPRI || f == EPOLLRDHUP;
    input != {}
  }

  predicate Writes(revents: Events) { EPOLLOUT in revents && EPOLLHUP !in revents }

  datatype Op = Add | Mod | Del

  class EventPoller {
    var channels: set<EventChannel>      // channels_
    var interest: map<int, Events>         // the kernel's interest list, by file descriptor
    ghost var known: set<EventChannel>   // channels created for this poller

    /** Everything agrees but possibly channel `c`, whose mask has just changed. */
    ghost predicate ValidBut(c: EventChannel?)
      reads this, known
    {
      && channels <= known
      && (forall d | d in known :: d.poller == this && (d != c ==> d.Agrees()))
      && (forall d, e | d in known && e in known && d != e :: d.fd != e.fd)
      && (forall fd | fd in interest :: exists d :: d in known && d.fd == fd)
    }

    /** Registered are exactly the channels with a non-empty mask, the kernel watches
        exactly their descriptors, and with exactly their masks. */
    ghost predicate Valid()
      reads this, known
    {
      ValidBut(null)
    }

    constructor ()
      ensures Valid() && known == {} && channels == {} && interest == map[]
    {
      channels, interest, known := {}, map[], {};
    }

    /** epoll_ctl: adding a watched descriptor, or changing an unwatched one, fails. */
    method Ctl(op: Op, fd: int, events: Events)
      modifies this`interest
      ensures interest == match op
        case Add => if fd in old(interest) then old(interest) else old(interest)[fd := events]
        case Mod => if fd in old(interest) then old(interest)[fd := events] else old(interest)
        case Del => old(interest) - {fd}
    {
      match op {
        case Add => if fd !in interest { interest := interest[fd := events]; }
        case Mod => if fd in interest { interest := interest[fd := events]; }
        case Del => interest := interest - {fd};
      }
    }

    /** Brings the registration in line with a changed mask. It succeeds exactly unless
        an unregistered channel is handed in with an empty mask, which would be added. */
    method UpdateChannel(channel: EventChannel)
      requires ValidBut(channel) && channel in known
      requires (channel in channels) == (channel.fd in interest)
      modifies this`channels, this`interest
      ensures Valid() <==> old(channel in channels) || !channel.IsNoneEvent()
      ensures channels - {channel} == old(channels) - {channel}
      ensures interest - {channel.fd} == old(interest) - {channel.fd}
      ensures !Valid() ==> channel in channels && interest == old(interest)[channel.fd := NONE_EVENT]
    {
      if channel in channels {
        if channel.IsNoneEvent() {
          Ctl(Del, channel.fd, channel.events);
          channels := channels - {channel};
        } else {
          Ctl(Mod, channel.fd, channel.events);
        }
      } else {
        Ctl(Add, channel.fd, channel.events);
        channels := channels + {channel};
      }
    }
  }

  class EventChannel {
    const poller: EventPoller
    const fd: int
    var events: Events

    ghost predicate Agrees()
      reads this, poller`channels, poller`interest
    {
      && (this in poller.channels <==> events != NONE_EVENT)
      && (fd in poller.interest <==> events != NONE_EVENT)
      && (events != NONE_EVENT ==> poller.interest[fd] == events)
    }

    predicate IsReading(): (r: bool)
      reads this
      ensures r <==> EPOLLIN in events || EPOLLPRI in events
    {
      assert forall f | f in events :: f in events * READ_EVENT <==> f == EPOLLIN || f == EPOLLPRI;
      events * READ_EVENT != {}
    }

    predicate IsWriting(): (r: bool)
      reads this
      ensures r <==> EPOLLOUT in events
    {
      assert forall f | f in events :: f in events * WRITE_EVENT <==> f == EPOLLOUT;
      events * WRITE_EVENT != {}
    }

    predicate IsNoneEvent() reads this { events == NONE_EVENT }

    constructor (poller: EventPoller, fd: int)
      requires poller.Valid() && fd !in poller.interest && forall d | d in poller.known :: d.fd != fd
      modifies poller`known
      ensures this.poller == poller && this.fd == fd && IsNoneEvent()
      ensures poller.Valid() && poller.known == old(poller.known) + {this}
    {
      this.poller := poller;
      this.fd := fd;
      events := NONE_EVENT;
      new;
      poller.known := poller.known + {this};
      assert forall fd' | fd' in poller.interest :: exists d :: d in old(poller.known) && d.fd == fd';
    }

    /** A channel that watches for something has a non-empty mask. */
    lemma Masks()
      ensures IsReading() || IsWriting() ==> !IsNoneEvent()
    {
    }

    /** The destructor: the source asserts that the channel watches nothing any more. */
    method Destroy()
      requires poller.Valid() && this in poller.known && IsNoneEvent()
      modifies poller`known
      ensures poller.Valid() && poller.known == old(poller.known) - {this}
    {
      assert Agrees();
      poller.known := poller.known - {this};
      forall fd' | fd' in poller.interest ensures exists d :: d in poller.known && d.fd == fd' {
        var d :| d in old(poller.known) && d.fd == fd';
        assert d in poller.known;
      }
    }

    method EnableReading()
      requires poller.Valid() && this in poller.known
      modifies this`events, poller`channels, poller`interest
      ensures poller.Valid() && events == old(events) + READ_EVENT
      ensures IsReading() && IsWriting() == old(IsWriting()) && !IsNoneEvent()
    {
      events := events + READ_EVENT;
      poller.UpdateChannel(this);
    }

    method EnableWriting()
      requires poller.Valid() && this in poller.known
      modifies this`events, poller`channels, poller`interest
      ensures poller.Valid() && events == old(events) + WRITE_EVENT
      ensures IsWriting() && IsReading() == old(IsReading()) && !IsNoneEvent()
    {
      events := events + WRITE_EVENT;
      poller.UpdateChannel(this);
    }

    /** On an unregistered channel this would register it with an empty mask. */
    method DisableReading()
      requires poller.Valid() && this in poller.known
      modifies this`events, poller`channels, poller`interest
      ensures !IsReading() && IsWriting() == old(IsWriting()) && events == old(events) - READ_EVENT
      ensures poller.Valid() <==> !old(IsNoneEvent())
    {
      events := events - READ_EVENT;
      poller.UpdateChannel(this);
    }

    method DisableWriting()
      requires poller.Valid() && this in poller.known
      modifies this`events, poller`channels, poller`interest
      ensures !IsWriting() && IsReading() == old(IsReading()) && events == old(events) - WRITE_EVENT
      ensures poller.Valid() <==> !old(IsNoneEvent())
    {
      events := events - WRITE_EVENT;
      poller.UpdateChannel(this);
    }

    method DisableAll()
      requires poller.Valid() && this in poller.known
      modifies this`events, poller`channels, poller`interest
      ensures IsNoneEvent()
      ensures poller.Valid() <==> !old(IsNoneEvent())
    {
      events := NONE_EVENT;
      poller.UpdateChannel(this);
    }
  }
}
