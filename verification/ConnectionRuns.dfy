/** Whole lives of a connection, from construction on. */
module ConnectionRuns {
  import opened Endian
  import opened Channels
  import opened Connections

  /** A call by the user on the loop thread, or a ready event with what the socket has to
      read, what the message callback does and how much the socket has room for. */
  datatype Step =
    | Do(action: Action)
    | Event(revents: Events, arrival: ReadResult, actions: seq<Action>, room: int)

  /** One readv returns no more than there is room for, and nothing only at the end of the stream. */
  function Offered(arrival: ReadResult, room: nat): ReadResult {
    match arrival
    case Data(bytes) => if bytes == [] then Eof else Data(bytes[..Min(room, |bytes|)])
    case _ => arrival
  }

  predicate HasData(arrival: ReadResult) { arrival.Data? && arrival.bytes != [] }

  /** How often a step closes an open connection. */
  function Closings(step: Step): nat {
    match step
    case Do(action) => if action.Close? then 1 else 0
    case Event(revents, arrival, actions, _) => Closes(HangsUp(revents), Reads(revents), Offered(arrival, 1), actions)
  }

  /** On an open connection the step passes the assertions and closes at most once: it
      does, unless a force-close meets the assertion or a hang-up also ends the stream. */
  predicate Passes(step: Step, ndebug: bool) {
    match step
    case Do(action) => action.Close? ==> ndebug
    case Event(revents, arrival, actions, _) =>
      Closings(step) == 0 || (Closings(step) == 1 && (ndebug || HangsUp(revents) || !HasData(arrival)))
  }

  predicate Closed(steps: seq<Step>) {
    steps != [] && (Closed(steps[..|steps| - 1]) || Closings(steps[|steps| - 1]) > 0)
  }

  /** Every step that finds the connection open passes. */
  predicate Sound(steps: seq<Step>, ndebug: bool) {
    steps == [] || (Sound(steps[..|steps| - 1], ndebug)
                    && (Closed(steps[..|steps| - 1]) || Passes(steps[|steps| - 1], ndebug)))
  }

  /** What a step sends on an open connection. */
  function SendsIn(step: Step): seq<byte> {
    match step
    case Do(action) => if action.Send? then action.block else []
    case Event(revents, arrival, actions, _) =>
      if Reads(revents) && HasData(arrival) && !HangsUp(revents) then SentBy(actions) else []
  }

  /** The step asks an open connection for a half-close. */
  predicate AsksHalfClose(step: Step) {
    match step
    case Do(action) => action.HalfClose?
    case Event(revents, arrival, actions, _) => Reads(revents) && HasData(arrival) && HalfClose in actions
  }

  /** What a life sends: everything up to its close. */
  function SentIn(steps: seq<Step>): seq<byte> {
    if steps == [] then []
    else
      var before := steps[..|steps| - 1];
      SentIn(before) + if Closed(before) then [] else SendsIn(steps[|steps| - 1])
  }

  /** One step of a life. `ok`: it passed the assertions and left the connection intact. */
  method Take(conn: TcpConnection, step: Step) returns (ok: bool)
    requires conn.Valid()
    modifies conn, conn.readBuffer, conn.readBuffer.data, conn.socket, conn.writeBuffer, conn.writeBuffer.data,
             conn.channel`events, conn.channel.poller`channels, conn.channel.poller`interest
    ensures ok <==> !old(conn.IsOpen()) || Passes(step, conn.ndebug)
    ensures ok ==> conn.Valid() && conn.ups == old(conn.ups)
    ensures ok ==> (conn.IsOpen() <==> old(conn.IsOpen()) && Closings(step) == 0)
    ensures ok ==> conn.closes == old(conn.closes) + if old(conn.IsOpen()) && Closings(step) > 0 then 1 else 0
    ensures ok ==> conn.sent == old(conn.sent) + if old(conn.IsOpen()) then SendsIn(step) else []
    ensures ok && conn.IsOpen() ==>
      (conn.status == Disconnecting <==> old(conn.status) == Disconnecting || AsksHalfClose(step))
    ensures fresh(conn.writeBuffer.data) || conn.writeBuffer.data == old(conn.writeBuffer.data)
    ensures fresh(conn.readBuffer.data) || conn.readBuffer.data == old(conn.readBuffer.data)
  {
    ok := true;
    match step {
      case Do(action) =>
        hide TcpConnection.Valid;
        ok := conn.Act(action);
      case Event(revents, arrival, actions, room) =>
        if conn.IsOpen() {
          var r := Offered(arrival, conn.ReadRoom());
          assert Reads(revents) <==> EPOLLIN in revents || EPOLLPRI in revents || EPOLLRDHUP in revents;
          assert HangsUp(revents) <==> EPOLLHUP in revents && EPOLLIN !in revents;
          hide TcpConnection.Valid, HangsUp, Reads, SentBy;
          ok := conn.HandleEvent(revents, r, actions, room);
          ok := ok && Closings(step) < 2;
        }
    }
  }

  /** A connection after these steps of its life, all sound. */
  ghost predicate After(conn: TcpConnection, steps: seq<Step>)
    reads conn
  {
    && Sound(steps, conn.ndebug) && (conn.IsOpen() <==> !Closed(steps))
    && conn.ups == 1 && conn.closes == (if Closed(steps) then 1 else 0) && conn.sent == SentIn(steps)
    && (conn.IsOpen() ==> (conn.status == Disconnecting <==> exists k :: 0 <= k < |steps| && AsksHalfClose(steps[k])))
  }

  method NextStep(conn: TcpConnection, steps: seq<Step>, i: nat) returns (ok: bool)
    requires conn.Valid() && i < |steps| && After(conn, steps[..i])
    modifies conn, conn.readBuffer, conn.readBuffer.data, conn.socket, conn.writeBuffer, conn.writeBuffer.data,
             conn.channel`events, conn.channel.poller`channels, conn.channel.poller`interest
    ensures ok ==> conn.Valid() && After(conn, steps[..i + 1])
    ensures ok <==> Sound(steps[..i + 1], conn.ndebug)
    ensures fresh(conn.writeBuffer.data) || conn.writeBuffer.data == old(conn.writeBuffer.data)
    ensures fresh(conn.readBuffer.data) || conn.readBuffer.data == old(conn.readBuffer.data)
  {
    hide TcpConnection.Valid, Passes, Closings, SendsIn, AsksHalfClose;
    assert steps[..i + 1][..i] == steps[..i];
    ok := Take(conn, steps[i]);
  }

  /** A life from construction through initInLoop over any sequence of calls and events.
      It goes through if and only if every step that finds the connection open passes;
      then there was one up callback, one down and one close callback if a step closed and
      none otherwise, the poller and the kernel know the channel exactly while it is open,
      and every byte sent until then is with the socket or waiting, in order. An open
      connection is half-closed exactly if a step asked for it, and its write side is shut
      down, once, as soon as nothing waits. */
  method Live(poller: EventPoller, fd: int, ndebug: bool, steps: seq<Step>) returns (conn: TcpConnection, ok: bool)
    requires poller.Valid() && fd !in poller.interest && forall d | d in poller.known :: d.fd != fd
    modifies poller
    ensures fresh(conn) && conn.channel.poller == poller && conn.channel.fd == fd
    ensures poller.known == old(poller.known) + {conn.channel}
    ensures ok <==> Sound(steps, ndebug)
    ensures ok ==> conn.Valid() && (conn.IsOpen() <==> !Closed(steps))
    ensures ok ==> conn.ups == 1 && conn.downs == conn.closes == if Closed(steps) then 1 else 0
    ensures ok ==> (conn.channel in poller.channels <==> !Closed(steps)) && (fd in poller.interest <==> !Closed(steps))
    ensures ok ==> conn.socket.accepted + conn.writeBuffer.Contents() == SentIn(steps) && conn.socket.shutdowns <= 1
    ensures ok && !Closed(steps) ==>
      && (conn.status == Disconnecting <==> exists k :: 0 <= k < |steps| && AsksHalfClose(steps[k]))
      && (conn.status == Disconnecting && conn.writeBuffer.Empty() ==> conn.socket.shutdowns == 1)
  {
    conn := new TcpConnection(poller, fd, ndebug);
    conn.InitInLoop();
    ok := true;
    assert steps[..0] == [];
    hide TcpConnection.Valid;
    for i := 0 to |steps|
      invariant fresh(conn) && fresh(conn.channel) && fresh(conn.socket)
      invariant fresh(conn.readBuffer) && fresh(conn.writeBuffer) && fresh(conn.readBuffer.data) && fresh(conn.writeBuffer.data)
      invariant conn.ndebug == ndebug && conn.channel.poller == poller && conn.channel.fd == fd
      invariant poller.known == old(poller.known) + {conn.channel}
      invariant conn.Valid() && After(conn, steps[..i])
    {
      hide *;
      ok := NextStep(conn, steps, i);
      if !ok {
        SoundPrefix(steps, i + 1, ndebug);
        return;
      }
    }
    assert steps[..|steps|] == steps;
    conn.Lifecycle();
    conn.NothingWaits();
  }

  lemma {:induction false} SoundPrefix(steps: seq<Step>, i: nat, ndebug: bool)
    requires i <= |steps| && !Sound(steps[..i], ndebug)
    ensures !Sound(steps, ndebug)
    decreases |steps|
  {
    if i < |steps| {
      assert steps[..|steps| - 1][..i] == steps[..i];
      SoundPrefix(steps[..|steps| - 1], i, ndebug);
    } else {
      assert steps[..i] == steps;
    }
  }
}
