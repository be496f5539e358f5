/** Many senders, one connection: blocks sent from other threads travel through the loop's
    queue, and each sender finds its own in the stream, whole and in the order of its calls. */
module SenderStreams {
  import opened Endian
  import opened QueueProtocol
  import opened SendOrder
  import opened Connections

  /** What ends up in the stream: the block a queued task hands to sendInLoop, or one that
      the loop thread sends directly in between. */
  datatype Piece = FromTask(task: Task) | Direct(bytes: seq<byte>)

  function BlockFor(block: map<Task, seq<byte>>, task: Task): seq<byte> {
    if task in block then block[task] else []
  }

  function BytesOf(piece: Piece, block: map<Task, seq<byte>>): seq<byte> {
    match piece
    case FromTask(task) => BlockFor(block, task)
    case Direct(bytes) => bytes
  }

  function Joined(pieces: seq<Piece>, block: map<Task, seq<byte>>): seq<byte> {
    if pieces == [] then [] else Joined(pieces[..|pieces| - 1], block) + BytesOf(pieces[|pieces| - 1], block)
  }

  function TasksOf(pieces: seq<Piece>): seq<Task> {
    if pieces == [] then []
    else
      var last := pieces[|pieces| - 1];
      TasksOf(pieces[..|pieces| - 1]) + if last.FromTask? then [last.task] else []
  }

  /** The blocks among the connection's steps are these pieces, in order. */
  predicate Carries(steps: seq<StreamStep>, pieces: seq<Piece>, block: map<Task, seq<byte>>) {
    if steps == [] then pieces == []
    else
      var last, before := steps[|steps| - 1], steps[..|steps| - 1];
      if last.Block?
      then pieces != [] && last.block == BytesOf(pieces[|pieces| - 1], block) && Carries(before, pieces[..|pieces| - 1], block)
      else Carries(before, pieces, block)
  }

  lemma {:induction false} CarriedBytes(steps: seq<StreamStep>, pieces: seq<Piece>, block: map<Task, seq<byte>>)
    requires Carries(steps, pieces, block)
    ensures Blocks(steps) == Joined(pieces, block)
    decreases |steps|
  {
    if steps != [] {
      var before := steps[..|steps| - 1];
      if steps[|steps| - 1].Block? {
        CarriedBytes(before, pieces[..|pieces| - 1], block);
      } else {
        CarriedBytes(before, pieces, block);
      }
    }
  }

  /** The p-th piece lies whole right behind the pieces before it. */
  lemma {:induction false} PieceAt(pieces: seq<Piece>, block: map<Task, seq<byte>>, p: nat)
    requires p < |pieces|
    ensures Joined(pieces[..p], block) + BytesOf(pieces[p], block) <= Joined(pieces, block)
    decreases |pieces|
  {
    var before := pieces[..|pieces| - 1];
    if p < |pieces| - 1 {
      assert before[..p] == pieces[..p];
      PieceAt(before, block, p);
    }
  }

  lemma {:induction false} KthOfThread(pieces: seq<Piece>, owner: map<Task, ThreadId>, t: ThreadId, k: nat) returns (p: nat)
    requires k < |OfThread(TasksOf(pieces), owner, t)|
    ensures p < |pieces| && pieces[p] == FromTask(OfThread(TasksOf(pieces), owner, t)[k])
    ensures |OfThread(TasksOf(pieces[..p]), owner, t)| == k
    decreases |pieces|
  {
    p := |pieces| - 1;
    var before := pieces[..p];
    if pieces[p].FromTask? {
      OfThreadGrows(TasksOf(before), pieces[p].task, owner, t);
    } else {
      assert TasksOf(pieces) == TasksOf(before);
    }
    if k < |OfThread(TasksOf(before), owner, t)| {
      p := KthOfThread(before, owner, t, k);
      assert before[..p] == pieces[..p];
    }
  }

  /** The block of the k-th call of thread t is the p-th piece of the stream, whole, behind
      `base` bytes and the pieces before it, k of which are the thread's own. */
  ghost predicate BlockAt(stream: seq<byte>, base: nat, pieces: seq<Piece>, block: map<Task, seq<byte>>,
                          owner: map<Task, ThreadId>, calls: seq<Task>, t: ThreadId, k: nat, p: nat)
    requires k < |calls|
  {
    && p < |pieces| && pieces[p] == FromTask(calls[k]) && |OfThread(TasksOf(pieces[..p]), owner, t)| == k
    && base + |Joined(pieces[..p], block)| + |BlockFor(block, calls[k])| <= |stream|
    && stream[base + |Joined(pieces[..p], block)|..][..|BlockFor(block, calls[k])|] == BlockFor(block, calls[k])
  }

  ghost predicate BlockIn(stream: seq<byte>, base: nat, pieces: seq<Piece>, block: map<Task, seq<byte>>,
                          owner: map<Task, ThreadId>, calls: seq<Task>, t: ThreadId, k: nat)
  {
    k < |calls| && exists p: nat :: BlockAt(stream, base, pieces, block, owner, calls, t, k, p)
  }

  lemma Slice(before: seq<byte>, joined: seq<byte>, head: seq<byte>, piece: seq<byte>)
    requires head + piece <= joined
    ensures |before| + |head| + |piece| <= |before + joined|
    ensures (before + joined)[|before| + |head|..][..|piece|] == piece
  {
    assert head + piece == joined[..|head| + |piece|];
    assert (before + joined)[|before| + |head|..] == joined[|head|..];
    assert piece == joined[..|head| + |piece|][|head|..];
  }

  lemma FindBlock(before: seq<byte>, pieces: seq<Piece>, block: map<Task, seq<byte>>,
                  owner: map<Task, ThreadId>, calls: seq<Task>, t: ThreadId, k: nat)
    requires OfThread(TasksOf(pieces), owner, t) <= calls && k < |OfThread(TasksOf(pieces), owner, t)|
    ensures BlockIn(before + Joined(pieces, block), |before|, pieces, block, owner, calls, t, k)
  {
    var p := KthOfThread(pieces, owner, t, k);
    PieceAt(pieces, block, p);
    hide Joined, OfThread, TasksOf;
    var stream := before + Joined(pieces, block);
    Slice(before, Joined(pieces, block), Joined(pieces[..p], block), BlockFor(block, calls[k]));
    assert BlockAt(stream, |before|, pieces, block, owner, calls, t, k, p);
  }

  /** Any interleaving of senders with the loop, any interleaving of their blocks with the
      loop thread's own and with writable events, any partial writes: at every moment, for
      every thread, the blocks of its calls that have run lie in what the socket has accepted
      and what waits, each whole and in the order of the calls. */
  method Deliver(conn: TcpConnection, steps: seq<StreamStep>, ghost trace: seq<State>, ghost actions: seq<QueueProtocol.Action>,
                 ghost i: nat, ghost owner: map<Task, ThreadId>, ghost pieces: seq<Piece>, ghost block: map<Task, seq<byte>>)
    requires conn.Valid() && conn.status == Connected
    requires Run(trace, actions) && OwnTasks(actions, owner) && i < |trace|
    requires Carries(steps, pieces, block) && TasksOf(pieces) == trace[i].history.popped
    modifies conn, conn.socket, conn.writeBuffer, conn.writeBuffer.data,
             conn.channel`events, conn.channel.poller`channels, conn.channel.poller`interest
    ensures conn.Valid()
    ensures
      var stream := conn.socket.accepted + conn.writeBuffer.Contents();
      && stream == old(conn.sent) + Joined(pieces, block)
      && forall t: ThreadId, k: nat | k < |OfThread(trace[i].history.popped, owner, t)| ::
           BlockIn(stream, |old(conn.sent)|, pieces, block, owner, Calls(actions[..i], t), t, k)
  {
    ghost var _ := conn.Stream(steps);
    hide TcpConnection.Valid, Run, OwnTasks, BlockIn;
    CarriedBytes(steps, pieces, block);
    forall t: ThreadId, k: nat | k < |OfThread(trace[i].history.popped, owner, t)|
      ensures BlockIn(old(conn.sent) + Joined(pieces, block), |old(conn.sent)|, pieces, block, owner, Calls(actions[..i], t), t, k)
    {
      RunsInCallOrder(trace, actions, owner, i, t);
      FindBlock(old(conn.sent), pieces, block, owner, Calls(actions[..i], t), t, k);
    }
  }
}
