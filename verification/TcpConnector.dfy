/** The connector: one connection attempt at a time, retried after growing delays. */
module Connectors {
  import opened Radix
  import opened Channels

  datatype Status = Disconnected | Connecting | Connected

  /** A socket is the channel's, was closed, or was handed to the user. */
  datatype Fate = Owned | Closed | Handed

  /** The k-th consecutive delay: doubled each time, capped at the maximum. */
  function Backoff(retryDelay: int, maxDelay: int, k: nat): int {
    var d := retryDelay * Pow(2, k);
    if d > maxDelay then maxDelay else d
  }

  /** Doubling the capped delay and capping again is capping the doubled delay. */
  lemma BackoffDoubles(retryDelay: int, maxDelay: int, k: nat)
    requires retryDelay <= maxDelay
    ensures Backoff(retryDelay, maxDelay, k + 1) ==
            var d := 2 * Backoff(retryDelay, maxDelay, k); if d > maxDelay then maxDelay else d
  {
    var p := Pow(2, k);
    assert Pow(2, k + 1) == 2 * p && p >= 1;
    assert retryDelay * (2 * p) == 2 * (retryDelay * p);
    if retryDelay <= 0 {
      assert retryDelay * p <= retryDelay;
    } else {
      assert retryDelay * p >= 0;
    }
  }

  /** Setting a timer beside no other is all there is to a schedule of one. */
  lemma OnlyTimer(pending: map<nat, int>, id: nat, delay: int)
    requires id !in pending
    ensures pending[id := delay].Keys == {id} <==> pending == map[]
    ensures pending.Keys == {} <==> pending == map[]
  {
    if other :| other in pending {
      assert other in pending[id := delay].Keys && other != id;
    }
  }

  class TcpConnector {
    const poller: EventPoller
    const retryDelay: int
    const maxDelay: int
    var currDelay: int
    var status: Status
    var timerId: nat
    var channel: EventChannel?
    // the world outside
    var pending: map<nat, int>   // this connector's timers that have not fired, with their delays
    var live: map<int, nat>      // its open descriptors, with the number of the socket behind each
    var sockets: seq<Fate>       // what became of each socket it ever opened
    ghost var delays: seq<int>   // of the retries since the start or the last reconnect

    /** A channel exists exactly while connecting, and owns the newest socket; every other
        socket was closed once or handed over once. */
    ghost predicate Owns()
      reads this, channel
    {
      && (channel != null <==> status == Connecting)
      && (channel == null ==> live == map[] && Owned !in sockets)
      && (channel != null ==>
            var newest := |sockets| - 1;
            newest >= 0 && live == map[channel.fd := newest] && sockets[newest] == Owned && Owned !in sockets[..newest])
    }

    /** A timer is pending exactly while a retry is scheduled, with that retry's delay, and
        only while disconnected; after the first attempt a disconnected connector always has one. */
    ghost predicate Scheduled()
      reads this
    {
      && pending.Keys == (if timerId != 0 then {timerId} else {})
      && (timerId != 0 ==> status == Disconnected && delays != [] && pending[timerId] == delays[|delays| - 1])
      && (status == Disconnected && sockets != [] ==> timerId != 0)
    }

    ghost predicate Backed()
      reads this`currDelay, this`delays
    {
      && retryDelay <= maxDelay
      && currDelay == Backoff(retryDelay, maxDelay, |delays|)
      && forall k | 0 <= k < |delays| :: delays[k] == Backoff(retryDelay, maxDelay, k)
    }

    ghost predicate Watched()
      reads this`channel, channel, poller, poller.known
    {
      && poller.Valid()
      && (channel != null ==> channel.poller == poller && channel in poller.known && channel.IsWriting() && !channel.IsReading())
    }

    ghost predicate Valid()
      reads this, channel, poller, poller.known
    {
      Owns() && Scheduled() && Backed() && Watched()
    }

    constructor (poller: EventPoller, retryDelay: int, maxDelay: int)
      requires poller.Valid() && retryDelay <= maxDelay
      ensures Valid() && this.poller == poller && this.retryDelay == retryDelay && this.maxDelay == maxDelay
      ensures status == Disconnected && timerId == 0 && sockets == [] && delays == []
    {
      this.poller, this.retryDelay, this.maxDelay := poller, retryDelay, maxDelay;
      currDelay, status, timerId, channel := retryDelay, Disconnected, 0, null;
      pending, live, sockets, delays := map[], map[], [], [];
    }

    /** socket(2): the kernel picks a descriptor. */
    method OpenSocket(fd: int)
      requires live == map[]
      modifies this`live, this`sockets
      ensures sockets == old(sockets) + [Owned] && live == map[fd := |old(sockets)|]
    {
      sockets, live := sockets + [Owned], map[fd := |sockets|];
    }

    /** close(2). Closing what is not open any more, or belongs to another, is excluded here. */
    method CloseSocket(fd: int)
      requires fd in live && live[fd] < |sockets| && sockets[live[fd]] == Owned
      modifies this`live, this`sockets
      ensures live == old(live) - {fd} && sockets == old(sockets)[old(live)[fd] := Closed]
    {
      sockets := sockets[live[fd] := Closed];
      live := live - {fd};
    }

    /** Starts an attempt on socket `fd`, which `started` says the kernel takes up; else
        timer `id` is set for the next one. A timer still pending is forgotten, not
        cancelled: all is well exactly unless a user connects while a retry is pending. */
    method Connect(fd: int, started: bool, id: nat)
      requires Owns() && Backed() && Watched() && status == Disconnected
      requires (forall d | d in poller.known :: d.fd != fd) && id != 0 && id !in pending
      modifies this, poller
      ensures Valid() <==> old(pending) == map[]
      ensures status == (if started then Connecting else Disconnected) && timerId == if started then 0 else id
      ensures sockets == old(sockets) + [if started then Owned else Closed]
      ensures pending == if started then old(pending) else old(pending)[id := old(currDelay)]
      ensures delays == old(delays) + if started then [] else [old(currDelay)]
      ensures started ==> fresh(channel) && channel.fd == fd
      ensures poller.known == old(poller.known) + if started then {channel} else {}
    {
      assert live == map[] && channel == null && Owned !in sockets;
      hide Backed, Watched, Owns, Scheduled;
      timerId := 0;
      OpenSocket(fd);
      if started {
        Watch(fd);
        assert Scheduled() <==> pending == map[] by { OnlyTimer(pending, id, 0); ScheduledIs(); }
      } else {
        Retry(fd, id);
        assert Scheduled() <==> old(pending) == map[] by { OnlyTimer(old(pending), id, old(currDelay)); ScheduledIs(); }
      }
    }

    lemma ScheduledIs()
      ensures Scheduled() <==>
        && pending.Keys == (if timerId != 0 then {timerId} else {})
        && (timerId != 0 ==> status == Disconnected && delays != [] && pending[timerId] == delays[|delays| - 1])
        && (status == Disconnected && sockets != [] ==> timerId != 0)
    {
    }

    /** A channel that waits for the socket to become writable. */
    method Watch(fd: int)
      requires Watched() && forall d | d in poller.known :: d.fd != fd
      requires channel == null && sockets != [] && live == map[fd := |sockets| - 1]
      requires sockets[|sockets| - 1] == Owned && Owned !in sockets[..|sockets| - 1]
      modifies this`status, this`channel, poller
      ensures Watched() && Owns() && status == Connecting && fresh(channel) && channel.fd == fd
      ensures poller.known == old(poller.known) + {channel}
    {
      hide EventChannel.Agrees;
      status := Connecting;
      channel := new EventChannel(poller, fd);
      assert !channel.IsReading();
      channel.EnableWriting();
    }

    /** Gives the socket up and schedules the next attempt. */
    method Retry(fd: int, id: nat)
      requires status == Disconnected && channel == null && timerId == 0 && Backed() && id != 0
      requires sockets != [] && live == map[fd := |sockets| - 1]
      requires sockets[|sockets| - 1] == Owned && Owned !in sockets[..|sockets| - 1]
      modifies this`live, this`sockets, this`timerId, this`pending, this`currDelay, this`delays
      ensures Owns() && Backed() && timerId == id && pending == old(pending)[id := old(currDelay)]
      ensures sockets == old(sockets)[|old(sockets)| - 1 := Closed] && delays == old(delays) + [old(currDelay)]
    {
      CloseSocket(fd);
      timerId := id;
      pending := pending[id := currDelay];
      BackoffDoubles(retryDelay, maxDelay, |delays|);
      delays := delays + [currDelay];
      currDelay := currDelay * 2;
      if currDelay > maxDelay {
        currDelay := maxDelay;
      }
    }

    /** The retry timer fires: a one-shot timer, which leaves the loop as it does. */
    method Fire(fired: nat, fd: int, started: bool, id: nat)
      requires Valid() && fired in pending
      requires (forall d | d in poller.known :: d.fd != fd) && id != 0
      modifies this, poller
      ensures Valid() && status == (if started then Connecting else Disconnected)
      ensures sockets == old(sockets) + [if started then Owned else Closed]
      ensures pending == if started then map[] else map[id := old(currDelay)]
      ensures delays == old(delays) + if started then [] else [old(currDelay)]
      ensures started ==> fresh(channel) && channel.fd == fd
      ensures poller.known == old(poller.known) + if started then {channel} else {}
    {
      pending := pending - {fired};
      Connect(fd, started, id);
    }

    /** A lost connection is taken up again, with the first delay. */
    method Reconnect(fd: int, started: bool, id: nat)
      requires Valid() && status == Connected
      requires (forall d | d in poller.known :: d.fd != fd) && id != 0
      modifies this, poller
      ensures Valid() && status == (if started then Connecting else Disconnected)
      ensures sockets == old(sockets) + [if started then Owned else Closed]
      ensures pending == if started then map[] else map[id := retryDelay]
      ensures delays == if started then [] else [retryDelay]
      ensures started ==> fresh(channel) && channel.fd == fd
      ensures poller.known == old(poller.known) + if started then {channel} else {}
    {
      status := Disconnected;
      currDelay := retryDelay;
      delays := [];
      Connect(fd, started, id);
    }

    /** Takes the channel out of the poller and gives its socket back. */
    method ResetChannel() returns (fd: int)
      requires Watched() && channel != null
      modifies this`channel, channel`events, poller`channels, poller`interest, poller`known
      ensures channel == null && fd == old(channel.fd) && poller.Valid()
      ensures poller.known == old(poller.known) - {old(channel)}
    {
      channel.Masks();
      channel.DisableAll();
      fd := channel.fd;
      channel.Destroy();
      channel := null;
    }

    /** The attempt has ended: `failed` with an error or connected to itself, or for good,
        in which case the socket goes to the user. */
    method HandleWrite(failed: bool, id: nat)
      requires Valid() && status == Connecting && id != 0
      modifies this, channel`events, poller`channels, poller`interest, poller`known
      ensures Valid() && status == (if failed then Disconnected else Connected)
      ensures sockets == old(sockets)[|old(sockets)| - 1 := if failed then Closed else Handed]
      ensures pending == if failed then map[id := old(currDelay)] else map[]
      ensures delays == old(delays) + if failed then [old(currDelay)] else []
      ensures poller.known == old(poller.known) - {old(channel)}
    {
      hide EventPoller.ValidBut, EventChannel.Agrees;
      var fd := ResetChannel();
      if failed {
        status := Disconnected;
        Retry(fd, id);
      } else {
        status := Connected;
        sockets, live := sockets[live[fd] := Handed], live - {fd};
      }
    }

    /** A ready event of the attempt's channel, which has a write callback only. It ends the
        attempt if and only if it is writability without a hang-up: a failure that the
        kernel reports together with EPOLLHUP never reaches the retry. */
    method HandleEvent(revents: Events, failed: bool, id: nat)
      requires Valid() && status == Connecting && id != 0
      modifies this, channel`events, poller`channels, poller`interest, poller`known
      ensures Valid() && (status != Connecting <==> EPOLLOUT in revents && EPOLLHUP !in revents)
      ensures status != Connecting && failed ==> status == Disconnected && pending == map[id := old(currDelay)]
      ensures status != Connecting && !failed ==>
        status == Connected && sockets == old(sockets)[|old(sockets)| - 1 := Handed]
      ensures status == Connecting ==> unchanged(this, poller)
    {
      if Writes(revents) {
        HandleWrite(failed, id);
      }
    }

    /** The destructor: nothing is left behind, and every socket ever opened was closed or
        handed over, once. */
    method Destroy()
      requires Valid()
      modifies this, poller, if channel == null then {} else {channel}
      ensures channel == null && pending == map[] && live == map[] && poller.Valid()
      ensures Owned !in sockets && |sockets| == |old(sockets)|
      ensures forall j | 0 <= j < |sockets| :: sockets[j] == if old(sockets)[j] == Owned then Closed else old(sockets)[j]
      ensures poller.known == old(poller.known) - if old(channel) == null then {} else {old(channel)}
    {
      if timerId != 0 {
        pending := pending - {timerId};
        timerId := 0;
      }
      if status == Connecting {
        var fd := ResetChannel();
        CloseSocket(fd);
        status := Disconnected;
      }
    }
  }

  // ---------------------------------------------------------------- whole runs

  /** How an attempt ends: not taken up by the kernel, failed later, or connected. */
  datatype Outcome = Refused | Failed | Made

  /** Consecutive failures at the end of a run of attempts. */
  function Failures(outcomes: seq<Outcome>): nat {
    if outcomes == [] || outcomes[|outcomes| - 1].Made? then 0 else Failures(outcomes[..|outcomes| - 1]) + 1
  }

  /** The delay before each retry of a run, in order. */
  function Delays(retryDelay: int, maxDelay: int, outcomes: seq<Outcome>): seq<int> {
    if outcomes == [] then []
    else
      var before := outcomes[..|outcomes| - 1];
      Delays(retryDelay, maxDelay, before)
        + if outcomes[|outcomes| - 1].Made? then [] else [Backoff(retryDelay, maxDelay, Failures(before))]
  }

  function Fates(outcomes: seq<Outcome>): seq<Fate> {
    if outcomes == [] then []
    else Fates(outcomes[..|outcomes| - 1]) + [if outcomes[|outcomes| - 1].Made? then Handed else Closed]
  }

  /** The connector between two attempts. */
  ghost predicate Between(c: TcpConnector, outcomes: seq<Outcome>)
    reads c, c.channel, c.poller, c.poller.known
  {
    && c.Valid() && c.channel == null && c.sockets == Fates(outcomes)
    && (c.status == Connected <==> outcomes != [] && outcomes[|outcomes| - 1].Made?)
    && (c.status == Disconnected ==> |c.delays| == Failures(outcomes))
    && (c.timerId != 0 <==> outcomes != [] && !outcomes[|outcomes| - 1].Made?)
  }

  /** The first attempt, a retry or a reconnect, whichever is due. */
  method Start(c: TcpConnector, ghost before: seq<Outcome>, started: bool, fd: int, id: nat)
    requires Between(c, before) && id != 0 && forall d | d in c.poller.known :: d.fd != fd
    modifies c, c.poller
    ensures c.Valid() && c.status == (if started then Connecting else Disconnected)
    ensures c.sockets == Fates(before) + [if started then Owned else Closed]
    ensures c.currDelay == Backoff(c.retryDelay, c.maxDelay, |c.delays|)
    ensures |c.delays| == Failures(before) + if started then 0 else 1
    ensures !started ==> c.pending == map[id := Backoff(c.retryDelay, c.maxDelay, Failures(before))]
    ensures started ==> fresh(c.channel)
    ensures c.poller.known == old(c.poller.known) + if started then {c.channel} else {}
  {
    assert c.status != Connecting;
    hide EventPoller.ValidBut, TcpConnector.Watched, TcpConnector.Owns, Fates;
    if c.status == Connected {
      c.Reconnect(fd, started, id);
    } else if c.timerId != 0 {
      c.Fire(c.timerId, fd, started, id);
    } else {
      c.Connect(fd, started, id);
    }
  }

  /** One whole attempt; `delay` is what a retry now waits for. */
  method Attempt(c: TcpConnector, ghost before: seq<Outcome>, outcome: Outcome, fd: int, id: nat) returns (delay: seq<int>)
    requires Between(c, before) && id != 0 && forall d | d in c.poller.known :: d.fd != fd
    modifies c, c.poller
    ensures Between(c, before + [outcome]) && c.poller.known == old(c.poller.known)
    ensures delay == if outcome.Made? then [] else [Backoff(c.retryDelay, c.maxDelay, Failures(before))]
  {
    Start(c, before, outcome != Refused, fd, id);
    hide EventPoller.ValidBut, TcpConnector.Watched, TcpConnector.Backed, Backoff;
    if outcome != Refused {
      c.HandleWrite(outcome == Failed, id);
    }
    delay := if c.timerId != 0 then [c.pending[c.timerId]] else [];
    assert (before + [outcome])[..|before|] == before;
  }

  /** Any run of attempts, retried when they fail and reconnected when they were made and
      lost, whatever descriptors and timer ids come back: the k-th consecutive retry waits
      min(retryDelay * 2^k, maxDelay), and every socket was closed once or handed over once. */
  method Drive(poller: EventPoller, retryDelay: int, maxDelay: int, outcomes: seq<Outcome>, fds: seq<int>, ids: seq<nat>)
    returns (c: TcpConnector, delays: seq<int>)
    requires poller.Valid() && retryDelay <= maxDelay && |fds| == |ids| == |outcomes|
    requires forall j, d | 0 <= j < |fds| && d in poller.known :: d.fd != fds[j]
    requires forall j | 0 <= j < |ids| :: ids[j] != 0
    modifies poller
    ensures c.Valid() && poller.known == old(poller.known)
    ensures delays == Delays(retryDelay, maxDelay, outcomes)
    ensures c.sockets == Fates(outcomes)
  {
    c := new TcpConnector(poller, retryDelay, maxDelay);
    delays := [];
    for j := 0 to |outcomes|
      invariant fresh(c) && c.poller == poller && c.retryDelay == retryDelay && c.maxDelay == maxDelay
      invariant Between(c, outcomes[..j]) && poller.known == old(poller.known)
      invariant delays == Delays(retryDelay, maxDelay, outcomes[..j])
    {
      hide Between, Backoff;
      assert outcomes[..j + 1] == outcomes[..j] + [outcomes[j]];
      assert outcomes[..j + 1][..j] == outcomes[..j];
      var delay := Attempt(c, outcomes[..j], outcomes[j], fds[j], ids[j]);
      delays := delays + delay;
    }
    assert outcomes[..|outcomes|] == outcomes;
  }
}
