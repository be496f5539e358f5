/** The queue's operations run to completion by one thread, while other producers may
    be paused anywhere inside `enqueue`. */
module LockFreeQueues {
  import opened QueueProtocol

  class LockFreeQueue {
    var nodes: map<Addr, DataNode>
    var head: Addr
    var tail: Addr
    ghost var producers: map<ThreadId, Producer>  // the paused threads
    ghost var history: History

    ghost function Protocol(): State
      reads this
    {
      State(nodes, head, tail, producers, Ready, false, history)
    }

    ghost predicate Valid()
      reads this
    {
      Inv(Protocol())
    }

    /** Tasks exchanged in and not yet dequeued, oldest first. */
    ghost function Pending(): seq<Task>
      reads this
      requires Valid()
    {
      history.pushed[|history.popped|..]
    }

    constructor (dummy: Addr)
      ensures Valid() && Pending() == [] && producers == map[] && nodes.Keys == {dummy}
    {
      nodes, head, tail := map[dummy := DataNode(NoPayload, Null)], dummy, dummy;
      producers := map[];
      history := Init(dummy).history;
      new;
      InitOk(dummy);
    }

    /** `addr` is what `new DataNode` returns. */
    method Enqueue(addr: Addr, task: Task, ghost thread: ThreadId)
      requires Valid() && addr !in nodes && thread !in producers
      modifies this
      ensures Valid() && producers == old(producers)
      ensures Pending() == old(Pending()) + [task]
    {
      ghost var after := Enqueued(Protocol(), thread, addr, task);
      EnqueuedIs(Protocol(), thread, addr, task);
      EnqueuedKeepsInv(Protocol(), thread, addr, task);
      HeadIsLive(after);
      hide Inv, Enqueued;
      nodes := nodes[addr := DataNode(Owned(task), Null)];
      var prev := head;
      head := addr;
      nodes := nodes[prev := nodes[prev].(next := To(addr))];
      history := after.history;
      assert Protocol() == after;
    }

    method Empty() returns (empty: bool)
      requires Valid()
      ensures empty <==> Pending() == [] || Stalled(Protocol())
    {
      LoadFailsIff(Protocol());
      empty := nodes[tail].next.Null?;
    }

    /** Fails exactly when nothing is pending or the oldest task's producer is paused
        before its link; otherwise takes the oldest task and frees the old dummy. */
    method Dequeue() returns (ok: bool, task: Task)
      requires Valid()
      modifies this
      ensures Valid() && producers == old(producers)
      ensures !ok <==> old(Pending() == [] || Stalled(Protocol()))
      ensures !ok ==> unchanged(this)
      ensures ok ==> [task] + Pending() == old(Pending()) && nodes.Keys == old(nodes.Keys - {tail})
    {
      LoadFailsIff(Protocol());
      task := 0;
      var dummy := tail;
      if nodes[dummy].next.Null? {
        return false, task;
      }
      ghost var after := Dequeued(Protocol());
      DequeuedIs(Protocol());
      hide Inv, Dequeued;
      var next := nodes[dummy].next.addr;
      task := nodes[next].data.task;
      nodes := nodes[next := nodes[next].(data := Deleted)];
      tail := next;
      nodes := nodes - {dummy};
      history := after.history;
      assert Protocol() == after;
      ok := true;
    }

    /** The destructor, with no other thread inside the queue: drains what is pending
        in order and leaves no node behind. */
    method Destroy() returns (drained: seq<Task>)
      requires Valid() && producers == map[]
      modifies this
      ensures nodes == map[]
      ensures drained == old(Pending())
    {
      hide Inv;
      drained := [];
      var ok, task := Dequeue();
      while ok
        invariant Valid() && producers == map[]
        invariant ok ==> drained + [task] + Pending() == old(Pending())
        invariant !ok ==> drained == old(Pending()) && Pending() == []
        decreases |Pending()| + if ok then 1 else 0
      {
        drained := drained + [task];
        ok, task := Dequeue();
      }
      PoppedIsPrefix(Protocol());
      DrainedHeap(Protocol());
      var front := head;
      nodes := nodes - {front};
    }
  }
}
