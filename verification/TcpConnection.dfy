/** A connection: output stream, half-close and lifecycle, over a socket that accepts
    any prefix of what it is given. */
module Connections {
  import opened Endian
  import opened MessageBuffers
  import opened Channels

  const EXT_BUFFER: nat := 8192

  function Min(a: int, b: int): (m: int)
    ensures m <= a && m <= b && (m == a || m == b)
  {
    if a <= b then a else b
  }

  /** How many of len bytes a socket with that much room takes. */
  function Taken(room: int, len: nat): nat { if room < 0 then 0 else Min(room, len) }

  /** The kernel's side of the socket: what it has accepted and the shutdown of its write side. */
  class Socket {
    var accepted: seq<byte>
    var shutdowns: nat

    constructor ()
      ensures accepted == [] && shutdowns == 0
    {
      accepted, shutdowns := [], 0;
    }

    /** write(2): takes what there is room for (the kernel's choice, negative for an
        error); a socket whose write side is shut down only fails. */
    method Write(buf: seq<byte>, room: int) returns (n: int)
      modifies this`accepted
      ensures n == if shutdowns > 0 || room < 0 then -1 else Min(room, |buf|)
      ensures accepted == old(accepted) + if n > 0 then buf[..n] else []
    {
      n := if shutdowns > 0 || room < 0 then -1 else Min(room, |buf|);
      if n > 0 {
        accepted := accepted + buf[..n];
      }
    }

    method Shutdown()
      modifies this`shutdowns
      ensures shutdowns == old(shutdowns) + 1
    {
      shutdowns := shutdowns + 1;
    }
  }

  /** Outcome of readv: at least one byte, end of stream, or an error. */
  datatype ReadResult = Data(bytes: seq<byte>) | Eof | Error

  /** What the user may do from a callback. */
  datatype Action = Send(block: seq<byte>, room: int) | HalfClose | Close

  /** One step of an outgoing stream; `room` is what the socket has room for. */
  datatype StreamStep = Block(block: seq<byte>, room: int) | Finish | Writable(room: int)

  datatype Status = Disconnected | Connecting | Connected | Disconnecting

  /** A block of which the socket took the first n bytes, nothing waiting before it, or
      none, is neither lost nor reordered. */
  lemma SplitBlock(accepted: seq<byte>, waiting: seq<byte>, block: seq<byte>, n: nat)
    requires n <= |block| && (n == 0 || waiting == [])
    ensures (accepted + block[..n]) + (waiting + block[n..]) == (accepted + waiting) + block
  {
    assert block == block[..n] + block[n..];
  }

  class TcpConnection {
    const socket: Socket
    const channel: EventChannel
    const readBuffer: MessageBuffer
    const writeBuffer: MessageBuffer
    const ndebug: bool   // built without assertions
    var status: Status
    // callback invocations
    var ups: nat
    var downs: nat
    var closes: nat
    // history
    ghost var sent: seq<byte>            // all blocks passed to sendInLoop, in order
    ghost var sentAtShutdown: seq<byte>  // the same when the write side was shut down

    predicate IsOpen()
      reads this
    {
      status == Connected || status == Disconnecting
    }

    /** The objects the connection is made of, all distinct. */
    ghost predicate Parts()
      reads this, readBuffer, writeBuffer, channel
    {
      && readBuffer != writeBuffer && readBuffer.data != writeBuffer.data
      && readBuffer.Valid() && writeBuffer.Valid()
    }

    /** No byte is lost, duplicated or reordered on its way to the socket. */
    ghost predicate Conserved()
      reads this, writeBuffer, writeBuffer.data, socket
      requires writeBuffer.Pointers()
    {
      && socket.accepted + writeBuffer.Contents() == sent
      && socket.shutdowns <= 1
      && (socket.shutdowns == 1 ==> socket.accepted == sentAtShutdown)
    }

    /** Registered exactly while open; watching for writability exactly while bytes wait;
        a requested shutdown is done or waits for the bytes. */
    ghost predicate Registered()
      reads this, channel, writeBuffer, socket
    {
      && (IsOpen() <==> !channel.IsNoneEvent())
      && (IsOpen() ==> channel.IsReading() && (channel.IsWriting() <==> !writeBuffer.Empty()))
      && (status == Disconnecting ==> socket.shutdowns == 1 || channel.IsWriting())
      && (status == Connected ==> socket.shutdowns == 0)
      && status != Connecting
    }

    ghost predicate Counted()
      reads this
    {
      ups == downs + (if IsOpen() then 1 else 0) && downs == closes
    }

    ghost predicate Valid()
      reads this, readBuffer, writeBuffer, writeBuffer.data, channel, channel.poller, channel.poller.known, socket
    {
      && Parts() && channel.poller.Valid() && channel in channel.poller.known
      && Conserved() && Registered() && Counted()
    }

    constructor (poller: EventPoller, fd: int, ndebug: bool)
      requires poller.Valid() && fd !in poller.interest && forall d | d in poller.known :: d.fd != fd
      modifies poller`known
      ensures Valid() && status == Disconnected && ups == 0 && sent == [] && this.ndebug == ndebug
      ensures socket.shutdowns == 0 && writeBuffer.Empty() && readBuffer.Contents() == []
      ensures channel.poller == poller && channel.fd == fd && fresh(channel)
      ensures poller.known == old(poller.known) + {channel}
      ensures fresh(socket) && fresh(readBuffer) && fresh(writeBuffer) && fresh(readBuffer.data) && fresh(writeBuffer.data)
    {
      socket := new Socket();
      channel := new EventChannel(poller, fd);
      readBuffer := new MessageBuffer(1024);
      writeBuffer := new MessageBuffer(1024);
      this.ndebug := ndebug;
      status := Disconnected;
      ups, downs, closes := 0, 0, 0;
      sent, sentAtShutdown := [], [];
    }

    /** Registered with the poller, and watched by the kernel for exactly its mask, exactly
        while open; and as many closes and downs as ups, but for the life still going on. */
    lemma Lifecycle()
      requires Valid()
      ensures IsOpen() <==> channel in channel.poller.channels
      ensures IsOpen() <==> channel.fd in channel.poller.interest
      ensures IsOpen() ==> channel.poller.interest[channel.fd] == channel.events
      ensures IsOpen() ==> channel.IsReading() && (channel.IsWriting() <==> |writeBuffer.Contents()| > 0)
      ensures downs == closes && ups == closes + if IsOpen() then 1 else 0
    {
      assert channel.Agrees();
    }

    /** The source asserts that the connection is not connected. It works for a fresh
        connection, and for no other: one that has been shut down or left with bytes waiting
        would come back with interests that do not fit. */
    method InitInLoop()
      requires Valid() && status == Disconnected
      modifies this`status, this`ups, channel`events, channel.poller`channels, channel.poller`interest
      ensures status == Connected && ups == old(ups) + 1 && channel.poller.Valid()
      ensures Valid() <==> writeBuffer.Empty() && socket.shutdowns == 0
    {
      hide EventPoller.ValidBut, EventChannel.Agrees, MessageBuffer.Valid;
      channel.Masks();
      status := Connected;
      channel.EnableReading();
      ups := ups + 1;
    }

    method ShutdownInLoop()
      requires Valid()
      modifies this`status, this`sentAtShutdown, socket`shutdowns
      ensures Valid()
      ensures status == if old(status) == Connected then Disconnecting else old(status)
      ensures socket.shutdowns == old(socket.shutdowns)
        + if old(status) == Connected && writeBuffer.Empty() then 1 else 0
    {
      if status == Connected {
        status := Disconnecting;
        if !channel.IsWriting() {
          socket.Shutdown();
          sentAtShutdown := sent;
        }
      }
    }

    /** Queues or writes a block. The source does not check the status; a caller must. */
    method SendInLoop(buf: seq<byte>, room: int)
      requires Valid() && IsOpen()
      modifies this`sent, socket`accepted, writeBuffer, writeBuffer.data,
               channel`events, channel.poller`channels, channel.poller`interest
      ensures Valid() && sent == old(sent) + buf
      ensures fresh(writeBuffer.data) || writeBuffer.data == old(writeBuffer.data)
      ensures socket.accepted == old(socket.accepted)
        + if old(writeBuffer.Empty() && socket.shutdowns == 0) then buf[..Taken(room, |buf|)] else []
    {
      hide EventPoller.ValidBut, EventChannel.Agrees, MessageBuffer.Valid, MessageBuffer.Contents;
      ghost var accepted, waiting := socket.accepted, writeBuffer.Contents();
      var n := 0;
      if !channel.IsWriting() && writeBuffer.Empty() {
        n := socket.Write(buf, room);
        if n < 0 {
          n := 0;
        }
      }
      SplitBlock(accepted, waiting, buf, n);
      sent := sent + buf;
      if n < |buf| {
        QueueRest(buf[n..]);
      }
    }

    /** What the socket did not take waits in the buffer, and the channel watches for room. */
    method QueueRest(rest: seq<byte>)
      requires Parts() && channel.poller.Valid() && channel in channel.poller.known
      modifies writeBuffer, writeBuffer.data, channel`events, channel.poller`channels, channel.poller`interest
      ensures Parts() && channel.poller.Valid()
      ensures writeBuffer.Contents() == old(writeBuffer.Contents()) + rest
      ensures fresh(writeBuffer.data) || writeBuffer.data == old(writeBuffer.data)
      ensures channel.IsWriting() && channel.IsReading() == old(channel.IsReading()) && !channel.IsNoneEvent()
    {
      hide EventPoller.ValidBut, EventChannel.Agrees;
      writeBuffer.Write(rest);
      if !channel.IsWriting() {
        channel.EnableWriting();
      } else {
        channel.Masks();
      }
    }

    /** The socket is writable: sends from the buffer, and does a pending half-close once it is empty. */
    method HandleWrite(room: int)
      requires Valid()
      modifies this`sentAtShutdown, socket, writeBuffer`read, writeBuffer`write,
               channel`events, channel.poller`channels, channel.poller`interest
      ensures Valid() && sent == old(sent)
      ensures socket.accepted == old(socket.accepted)
        + if old(channel.IsWriting() && socket.shutdowns == 0)
          then old(writeBuffer.Contents())[..Taken(room, old(writeBuffer.ReadByte()))] else []
      ensures socket.shutdowns == old(socket.shutdowns)
        + if old(channel.IsWriting()) && writeBuffer.Empty() && status == Disconnecting then 1 else 0
      ensures old(channel.IsWriting() && socket.shutdowns == 0) && room >= old(writeBuffer.ReadByte()) ==> writeBuffer.Empty()
      ensures !old(channel.IsWriting()) ==> unchanged(socket, writeBuffer)
    {
      hide EventPoller.ValidBut, EventChannel.Agrees, MessageBuffer.Valid, MessageBuffer.Contents;
      if channel.IsWriting() {
        ghost var accepted, waiting := socket.accepted, writeBuffer.Contents();
        var n := socket.Write(writeBuffer.Contents(), room);
        if n > 0 {
          writeBuffer.Retrieve(n);
          SplitBlock(accepted, [], waiting, n);
          if writeBuffer.Empty() {
            Drained();
          }
        }
      }
    }

    /** Nothing waits any more: writing interest goes off, and a requested half-close is done. */
    method Drained()
      requires channel.poller.Valid() && channel in channel.poller.known && channel.IsReading()
      modifies this`sentAtShutdown, socket`shutdowns, channel`events, channel.poller`channels, channel.poller`interest
      ensures channel.poller.Valid() && channel.IsReading() && !channel.IsWriting() && !channel.IsNoneEvent()
      ensures socket.shutdowns == old(socket.shutdowns) + if status == Disconnecting then 1 else 0
      ensures sentAtShutdown == if status == Disconnecting then sent else old(sentAtShutdown)
    {
      hide EventPoller.ValidBut, EventChannel.Agrees;
      channel.Masks();
      channel.DisableWriting();
      channel.Masks();
      if status == Disconnecting {
        socket.Shutdown();
        sentAtShutdown := sent;
      }
    }

    /** How much one readv can take: the room in the buffer, and the stack buffer when
        that room is smaller than it. */
    function ReadRoom(): nat
      reads readBuffer
      requires readBuffer.Pointers()
    {
      var room := readBuffer.WriteByte();
      if room < EXT_BUFFER then room + EXT_BUFFER else room
    }

    /** The bytes of one readv, scattered over the buffer's room and the stack buffer,
        end up in the buffer once each and in order. */
    method Receive(bytes: seq<byte>)
      requires Valid() && |bytes| <= ReadRoom()
      modifies readBuffer, readBuffer.data
      ensures Valid() && readBuffer.Contents() == old(readBuffer.Contents()) + bytes
      ensures fresh(readBuffer.data) || readBuffer.data == old(readBuffer.data)
    {
      hide MessageBuffer.Valid, MessageBuffer.Contents, Conserved, Registered, Counted, EventPoller.ValidBut;
      readBuffer.Scatter(bytes);
    }

    /** Closes. `ok` says whether the assertion on the status let it through. */
    method HandleClose() returns (ok: bool)
      requires channel.poller.Valid() && channel in channel.poller.known
      modifies this`status, this`downs, this`closes, channel`events, channel.poller`channels, channel.poller`interest
      ensures ok <==> old(IsOpen()) || ndebug
      ensures ok ==> status == Disconnected && channel.IsNoneEvent()
      ensures ok ==> downs == old(downs) + 1 && closes == old(closes) + 1
      ensures ok ==> (channel.poller.Valid() <==> !old(channel.IsNoneEvent()))
      ensures ok && old(Valid()) ==> (Valid() <==> old(IsOpen()))
      ensures !ok ==> unchanged(this, channel, channel.poller)
    {
      hide EventPoller.ValidBut, EventChannel.Agrees, MessageBuffer.Valid;
      if !IsOpen() && !ndebug {
        return false;
      }
      status := Disconnected;
      channel.DisableAll();
      downs := downs + 1;
      closes := closes + 1;
      ok := true;
    }

    /** Meant to close an open connection. It forgets the status before the assertion
        looks at it, so it does so exactly in builds without assertions. */
    method ForceCloseInLoop() returns (ok: bool)
      requires Valid()
      modifies this`status, this`downs, this`closes, channel`events, channel.poller`channels, channel.poller`interest
      ensures ok <==> !old(IsOpen()) || ndebug
      ensures ok ==> Valid() && !IsOpen() && closes == old(closes) + if old(IsOpen()) then 1 else 0
    {
      hide EventPoller.ValidBut, EventChannel.Agrees, MessageBuffer.Valid;
      ok := true;
      if status == Connected || status == Disconnecting {
        status := Disconnected;
        ok := HandleClose();
      }
    }

    method Act(action: Action) returns (ok: bool)
      requires Valid()
      modifies this, socket, writeBuffer, writeBuffer.data, channel`events, channel.poller`channels, channel.poller`interest
      ensures ok <==> !old(IsOpen()) || !action.Close? || ndebug
      ensures ups == old(ups) && (fresh(writeBuffer.data) || writeBuffer.data == old(writeBuffer.data))
      ensures ok ==> Valid() && (IsOpen() <==> old(IsOpen()) && !action.Close?)
      ensures ok ==> closes == old(closes) + if old(IsOpen()) && action.Close? then 1 else 0
      ensures ok ==> sent == old(sent) + if old(IsOpen()) && action.Send? then action.block else []
      ensures ok && IsOpen() ==> (status == Disconnecting <==> old(status) == Disconnecting || action.HalfClose?)
      ensures !action.HalfClose? ==> socket.shutdowns == old(socket.shutdowns)
    {
      hide Conserved, Registered, Counted, Parts, EventPoller.ValidBut;
      ok := true;
      match action {
        case Send(block, room) =>
          if IsOpen() { SendInLoop(block, room); }
        case HalfClose => ShutdownInLoop();
        case Close => ok := ForceCloseInLoop();
      }
    }

    /** What the user's message callback does on the connection; it sends only while it is open. */
    method Callback(actions: seq<Action>) returns (ok: bool)
      requires Valid()
      modifies this, socket, writeBuffer, writeBuffer.data, channel`events, channel.poller`channels, channel.poller`interest
      ensures ok <==> !old(IsOpen()) || Close !in actions || ndebug
      ensures ups == old(ups) && (ok ==> sent == old(sent) + if old(IsOpen()) then SentBy(actions) else [])
      ensures ok ==> Valid() && (IsOpen() <==> old(IsOpen()) && Close !in actions)
      ensures ok ==> closes == old(closes) + if old(IsOpen()) && Close in actions then 1 else 0
      ensures ok && IsOpen() ==> (status == Disconnecting <==> old(status) == Disconnecting || HalfClose in actions)
      ensures HalfClose !in actions ==> socket.shutdowns == old(socket.shutdowns)
      ensures actions == [] ==> unchanged(this, socket, writeBuffer, channel) && writeBuffer.Contents() == old(writeBuffer.Contents())
      ensures fresh(writeBuffer.data) || writeBuffer.data == old(writeBuffer.data)
    {
      ok := true;
      if actions == [] { return; }
      ghost var open, half, base, closed, up := IsOpen(), status == Disconnecting, sent, closes, ups;
      assert actions[..0] == [];
      for i := 0 to |actions|
        invariant Valid() && Acted(open, half, base, closed, up, actions[..i])
        invariant HalfClose !in actions[..i] ==> socket.shutdowns == old(socket.shutdowns)
        invariant fresh(writeBuffer.data) || writeBuffer.data == old(writeBuffer.data)
      {
        hide Valid, Acted, SentBy;
        ok := ActTurn(actions, i, open, half, base, closed, up);
        if !ok {
          assert actions[i] in actions;
          return;
        }
      }
      assert actions[..|actions|] == actions;
    }

    /** The effect of actions on a connection that was open or not, half-closed or not, with `base` sent. */
    ghost predicate Acted(open: bool, half: bool, base: seq<byte>, closed: nat, up: nat, actions: seq<Action>)
      reads this
    {
      && ups == up && (open && Close in actions ==> ndebug)
      && (IsOpen() <==> open && Close !in actions)
      && closes == closed + (if open && Close in actions then 1 else 0)
      && (IsOpen() ==> (status == Disconnecting <==> half || HalfClose in actions))
      && sent == base + if open then SentBy(actions) else []
    }

    method ActTurn(actions: seq<Action>, i: nat, ghost open: bool, ghost half: bool, ghost base: seq<byte>,
                   ghost closed: nat, ghost up: nat)
      returns (ok: bool)
      requires Valid() && i < |actions| && Acted(open, half, base, closed, up, actions[..i])
      modifies this, socket, writeBuffer, writeBuffer.data, channel`events, channel.poller`channels, channel.poller`interest
      ensures ok ==> Valid() && Acted(open, half, base, closed, up, actions[..i + 1])
      ensures !ok ==> open && actions[i].Close? && !ndebug && ups == up
      ensures !actions[i].HalfClose? ==> socket.shutdowns == old(socket.shutdowns)
      ensures fresh(writeBuffer.data) || writeBuffer.data == old(writeBuffer.data)
    {
      hide Valid, SentBy;
      OneMore(actions, i);
      ok := Act(actions[i]);
    }

    static lemma OneMore(actions: seq<Action>, i: nat)
      requires i < |actions|
      ensures Close in actions[..i + 1] <==> Close in actions[..i] || actions[i].Close?
      ensures HalfClose in actions[..i + 1] <==> HalfClose in actions[..i] || actions[i].HalfClose?
      ensures SentBy(actions[..i + 1]) ==
        SentBy(actions[..i]) + if actions[i].Send? && Close !in actions[..i] then actions[i].block else []
    {
      assert actions[..i + 1] == actions[..i] + [actions[i]];
      assert actions[..i + 1][..i] == actions[..i];
    }

    /** The socket is readable: takes the bytes in and hands them to the user, or closes. */
    method HandleRead(r: ReadResult, actions: seq<Action>) returns (ok: bool)
      requires Valid() && (r.Data? ==> 0 < |r.bytes| <= ReadRoom())
      modifies this, readBuffer, readBuffer.data, socket, writeBuffer, writeBuffer.data,
               channel`events, channel.poller`channels, channel.poller`interest
      ensures r.Data? ==> readBuffer.Valid() && readBuffer.Contents() == old(readBuffer.Contents()) + r.bytes
      ensures ok <==> ndebug || if r.Data? then !old(IsOpen()) || Close !in actions else old(IsOpen())
      ensures ok ==> (Valid() <==> r.Data? || old(IsOpen()))
      ensures ok ==> (IsOpen() <==> old(IsOpen()) && r.Data? && Close !in actions)
      ensures ups == old(ups) && (ok ==> sent == old(sent) + if old(IsOpen()) && r.Data? then SentBy(actions) else [])
      ensures ok ==> closes == old(closes) + if !r.Data? || (old(IsOpen()) && Close in actions) then 1 else 0
      ensures ok && IsOpen() ==> (status == Disconnecting <==> old(status) == Disconnecting || HalfClose in actions)
      ensures HalfClose !in actions ==> socket.shutdowns == old(socket.shutdowns)
      ensures r.Data? && actions == [] ==> unchanged(this, channel)
      ensures ok && !r.Data? ==> channel.IsNoneEvent()
      ensures !r.Data? || actions == [] ==> unchanged(socket, writeBuffer) && writeBuffer.Contents() == old(writeBuffer.Contents())
      ensures fresh(readBuffer.data) || readBuffer.data == old(readBuffer.data)
      ensures fresh(writeBuffer.data) || writeBuffer.data == old(writeBuffer.data)
    {
      hide Conserved, Registered, Counted, EventPoller.ValidBut;
      if r.Data? {
        Receive(r.bytes);
        ok := Callback(actions);
      } else {
        ok := HandleClose();
      }
    }

    /** With nothing waiting the socket has taken everything sent. */
    lemma NothingWaits()
      requires Valid()
      ensures socket.accepted + writeBuffer.Contents() == sent && socket.shutdowns <= 1
      ensures writeBuffer.Empty() ==> socket.accepted == sent
      ensures status == Disconnecting && writeBuffer.Empty() ==> socket.shutdowns == 1
      ensures status == Connected ==> socket.shutdowns == 0
    {
    }

    lemma Waiting()
      requires Valid()
      ensures writeBuffer.ReadByte() <= |sent|
      ensures IsOpen() ==> (channel.IsWriting() <==> !writeBuffer.Empty())
    {
      assert |socket.accepted| + writeBuffer.ReadByte() == |sent|;
    }

    method StreamOne(step: StreamStep)
      requires Valid() && IsOpen()
      modifies this, socket, writeBuffer, writeBuffer.data, channel`events, channel.poller`channels, channel.poller`interest
      ensures Valid() && IsOpen() && (status == Disconnecting <==> old(status) == Disconnecting || step.Finish?)
      ensures sent == old(sent) + (if step.Block? then step.block else [])
      ensures fresh(writeBuffer.data) || writeBuffer.data == old(writeBuffer.data)
      ensures old(socket.shutdowns) == 1 ==> socket.shutdowns == 1 && socket.accepted == old(socket.accepted)
      ensures old(socket.shutdowns) == 0 && socket.shutdowns == 1 ==> status == Disconnecting && socket.accepted == sent
    {
      hide Conserved, Registered, Counted, Parts, EventPoller.ValidBut;
      NothingWaits();
      match step {
        case Block(block, room) => SendInLoop(block, room);
        case Finish => ShutdownInLoop();
        case Writable(room) => HandleWrite(room);
      }
      NothingWaits();
    }

    /** The first i steps have been taken from an open connection with `base` sent; a
        shutdown came with the k-th. */
    ghost predicate Streamed(base: seq<byte>, steps: seq<StreamStep>, i: nat, k: nat)
      reads this, socket
      requires i <= |steps| && k <= |steps|
    {
      && IsOpen() && (status == Disconnecting <==> Finish in steps[..i])
      && sent == base + Blocks(steps[..i]) && socket.shutdowns <= 1
      && (socket.shutdowns == 1 ==> k <= i && Finish in steps[..k] && socket.accepted == base + Blocks(steps[..k]))
    }

    method StreamTurn(ghost base: seq<byte>, steps: seq<StreamStep>, i: nat, ghost k: nat) returns (ghost k': nat)
      requires Valid() && i < |steps| && k <= |steps| && Streamed(base, steps, i, k)
      modifies this, socket, writeBuffer, writeBuffer.data, channel`events, channel.poller`channels, channel.poller`interest
      ensures Valid() && k' <= |steps| && Streamed(base, steps, i + 1, k')
      ensures fresh(writeBuffer.data) || writeBuffer.data == old(writeBuffer.data)
    {
      hide Valid;
      assert steps[..i + 1][..i] == steps[..i];
      StreamOne(steps[i]);
      NothingWaits();
      k' := if old(socket.shutdowns) == 0 && socket.shutdowns == 1 then i + 1 else k;
    }

    /** Any run of sends, a half-close and writable events, whatever part of each write the
        socket takes: accepted and waiting bytes are the blocks in order. The write side is
        shut down at most once, at a moment k after the half-close was asked for at which the
        socket has taken every block sent so far, and for good; and it is done once no byte waits. */
    method Stream(steps: seq<StreamStep>) returns (ghost k: nat)
      requires Valid() && status == Connected
      modifies this, socket, writeBuffer, writeBuffer.data, channel`events, channel.poller`channels, channel.poller`interest
      ensures Valid() && IsOpen() && (status == Disconnecting <==> Finish in steps)
      ensures socket.accepted + writeBuffer.Contents() == old(sent) + Blocks(steps)
      ensures socket.shutdowns <= 1 && (Finish in steps && writeBuffer.Empty() ==> socket.shutdowns == 1)
      ensures socket.shutdowns == 1 ==>
        k <= |steps| && Finish in steps[..k] && socket.accepted == old(sent) + Blocks(steps[..k])
    {
      k := 0;
      NothingWaits();
      assert steps[..0] == [];
      hide Valid, MessageBuffer.Contents;
      for i := 0 to |steps|
        invariant Valid() && k <= |steps| && Streamed(old(sent), steps, i, k)
        invariant fresh(writeBuffer.data) || writeBuffer.data == old(writeBuffer.data)
      {
        hide *;
        k := StreamTurn(old(sent), steps, i, k);
      }
      assert steps[..|steps|] == steps;
      NothingWaits();
    }

    /** The close and read callbacks of one event of an open connection: a hang-up closes,
        input is read and handed to the user, or closes at the end of the stream. */
    method CloseAndRead(hangsUp: bool, input: bool, r: ReadResult, actions: seq<Action>) returns (ok: bool)
      requires Valid() && IsOpen() && (r.Data? ==> 0 < |r.bytes| <= ReadRoom())
      modifies this, readBuffer, readBuffer.data, socket, writeBuffer, writeBuffer.data,
               channel`events, channel.poller`channels, channel.poller`interest
      ensures
        var ends, user := input && !r.Data?, input && r.Data? && Close in actions && !hangsUp;
        && (ok <==> ndebug || !((hangsUp && ends) || user))
        && (ok ==> (IsOpen() <==> !hangsUp && !ends && !user) && (Valid() <==> !(hangsUp && ends)))
        && (ok ==> closes == old(closes) + (if hangsUp then 1 else 0) + (if ends then 1 else 0) + if user then 1 else 0)
      ensures ok && IsOpen() ==> (status == Disconnecting <==> old(status) == Disconnecting || (input && HalfClose in actions))
      ensures input && r.Data? && ok ==> readBuffer.Contents() == old(readBuffer.Contents()) + r.bytes
      ensures ups == old(ups)
      ensures ok ==> sent == old(sent) + if input && r.Data? && !hangsUp then SentBy(actions) else []
      ensures HalfClose !in actions ==> socket.shutdowns == old(socket.shutdowns)
      ensures !input || !r.Data? || actions == [] ==>
        unchanged(socket, writeBuffer) && writeBuffer.Contents() == old(writeBuffer.Contents())
      ensures !hangsUp && (!input || (r.Data? && actions == [])) ==> unchanged(this, channel)
      ensures ok && input && !r.Data? ==> channel.IsNoneEvent()
      ensures fresh(writeBuffer.data) || writeBuffer.data == old(writeBuffer.data)
      ensures fresh(readBuffer.data) || readBuffer.data == old(readBuffer.data)
    {
      hide Conserved, Registered, Counted, EventPoller.ValidBut, MessageBuffer.Valid, MessageBuffer.Contents;
      ok := true;
      if hangsUp {
        ok := HandleClose();
      }
      if input {
        ok := HandleRead(r, actions);
      }
    }

    /** One event of an open connection, dispatched to the callbacks in the source's order.
        A hang-up that comes without EPOLLIN but with another reading event closes twice
        when the read finds the end of the stream: the second close trips the assertion,
        or, in builds without assertions, puts the closed channel back into the poller. */
    method HandleEvent(revents: Events, r: ReadResult, actions: seq<Action>, room: int) returns (ok: bool)
      requires Valid() && IsOpen() && (r.Data? ==> 0 < |r.bytes| <= ReadRoom())
      modifies this, readBuffer, readBuffer.data, socket, writeBuffer, writeBuffer.data,
               channel`events, channel.poller`channels, channel.poller`interest
      // closing: by a hang-up without EPOLLIN, by a read that ends the stream, by the user
      ensures
        var hup := EPOLLHUP in revents && EPOLLIN !in revents;
        var input := EPOLLIN in revents || EPOLLPRI in revents || EPOLLRDHUP in revents;
        var ends, user := input && !r.Data?, input && r.Data? && Close in actions && !hup;
        && (ok <==> ndebug || !((hup && ends) || user))
        && (ok ==> (IsOpen() <==> !hup && !ends && !user) && (Valid() <==> !(hup && ends)))
        && (ok ==> closes == old(closes) + (if hup then 1 else 0) + (if ends then 1 else 0) + if user then 1 else 0)
        && (ok && IsOpen() ==> (status == Disconnecting <==> old(status) == Disconnecting || (input && HalfClose in actions)))
      // reading and sending
      ensures
        var input := EPOLLIN in revents || EPOLLPRI in revents || EPOLLRDHUP in revents;
        && (input && r.Data? && ok ==> readBuffer.Contents() == old(readBuffer.Contents()) + r.bytes)
        && (ok ==> sent == old(sent) + if input && r.Data? && !HangsUp(revents) then SentBy(actions) else [])
      ensures ups == old(ups)
      // writing, after reading and not after a close
      ensures
        var input := EPOLLIN in revents || EPOLLPRI in revents || EPOLLRDHUP in revents;
        EPOLLOUT in revents && EPOLLHUP !in revents && (!input || (r.Data? && actions == [])) ==>
          && socket.accepted == old(socket.accepted) + (if old(channel.IsWriting() && socket.shutdowns == 0)
               then old(writeBuffer.Contents())[..Taken(room, old(writeBuffer.ReadByte()))] else [])
          && socket.shutdowns == old(socket.shutdowns)
               + if old(channel.IsWriting()) && writeBuffer.Empty() && status == Disconnecting then 1 else 0
      ensures EPOLLOUT in revents && EPOLLHUP !in revents && ok && IsOpen() ==>
        (old(socket.shutdowns) == 0 && HalfClose !in actions && room >= |sent| ==> writeBuffer.Empty())
      ensures
        var input := EPOLLIN in revents || EPOLLPRI in revents || EPOLLRDHUP in revents;
        var output := EPOLLOUT in revents && EPOLLHUP !in revents;
        (!output && (!input || actions == [])) || (input && !r.Data?) ==> unchanged(socket, writeBuffer)
      ensures fresh(writeBuffer.data) || writeBuffer.data == old(writeBuffer.data)
      ensures fresh(readBuffer.data) || readBuffer.data == old(readBuffer.data)
    {
      var hangsUp, input, output := HangsUp(revents), Reads(revents), Writes(revents);
      assert readBuffer != writeBuffer && !(hangsUp && output);
      hide Valid, Parts, MessageBuffer.Valid, MessageBuffer.Contents, HangsUp, Reads, Writes, SentBy, Taken;
      ok := CloseAndRead(hangsUp, input, r, actions);
      if ok && output {
        Waiting();
        channel.Masks();
        HandleWrite(room);
      }
    }
  }

  /** How often one event closes an open connection: for a hang-up without EPOLLIN, for
      a read that ends the stream, or because the user asks for it. */
  function Closes(hangsUp: bool, readable: bool, r: ReadResult, actions: seq<Action>): nat {
    if hangsUp && readable && !r.Data? then 2
    else if hangsUp || (readable && (!r.Data? || Close in actions)) then 1
    else 0
  }

  /** What a callback sends before it closes. */
  function SentBy(actions: seq<Action>): seq<byte> {
    if actions == [] then []
    else
      var before := actions[..|actions| - 1];
      SentBy(before) + match actions[|actions| - 1]
        case Send(block, _) => if Close in before then [] else block
        case _ => []
  }

  function BlockOf(step: StreamStep): seq<byte> {
    match step case Block(block, _) => block case _ => []
  }

  /** The blocks of a run, one after the other. */
  function Blocks(steps: seq<StreamStep>): seq<byte> {
    if steps == [] then [] else Blocks(steps[..|steps| - 1]) + BlockOf(steps[|steps| - 1])
  }
}
