/** The lock-free queue as interleaved atomic steps of any number of producers and
    one consumer over an explicit heap of nodes. A step that touches memory that is
    not live, frees it twice or leaks a payload sets `fault`. */
module QueueProtocol {

  type Addr = nat
  type ThreadId = nat
  /** A queued callback, known by its identity. */
  type Task = nat

  datatype Link = Null | To(addr: Addr)

  /** The `data_` pointer: never set, owning a payload, or left dangling by `delete`. */
  datatype Payload = NoPayload | Owned(task: Task) | Deleted

  datatype DataNode = DataNode(data: Payload, next: Link)

  /** A thread inside `enqueue`: after `new`, or after the exchange of head. `place`
      is history: the position of the node in exchange order. */
  datatype Producer =
    | Allocated(node: Addr)
    | Exchanged(node: Addr, prev: Addr, place: nat)

  /** The consumer inside `dequeue`: outside it or about to load, after a successful load,
      after moving the payload out and deleting it, after publishing the new tail. */
  datatype Consumer =
    | Ready
    | Loaded(tail: Addr, next: Addr)
    | Emptied(tail: Addr, next: Addr)
    | Stored(tail: Addr)

  /** What a live node is for; history used by the proofs only. */
  datatype Role = InQueue(place: nat) | Private(thread: ThreadId) | Doomed

  datatype State = State(
    nodes: map<Addr, DataNode>,
    head: Addr,
    tail: Addr,
    producers: map<ThreadId, Producer>,
    consumer: Consumer,
    fault: bool,
    history: History)

  /** order: all nodes ever exchanged in, the initial dummy first; base: how many the
      tail has passed; pushed, popped: tasks exchanged in and moved out; unlinked: the
      places whose producer has not yet stored into its predecessor. */
  datatype History = History(
    order: seq<Addr>,
    base: nat,
    pushed: seq<Task>,
    popped: seq<Task>,
    unlinked: map<nat, ThreadId>,
    roles: map<Addr, Role>)

  datatype Action =
    | Alloc(thread: ThreadId, addr: Addr, task: Task)
    | Exchange(thread: ThreadId)
    | LinkPrev(thread: ThreadId)
    | Load
    | Take
    | Advance
    | Free

  /** The constructor: one dummy node, head and tail both pointing to it. */
  function Init(dummy: Addr): State {
    State(map[dummy := DataNode(NoPayload, Null)], dummy, dummy, map[], Ready, false,
          History([dummy], 0, [], [], map[], map[dummy := InQueue(0)]))
  }

  /** Program order of each thread; the allocator returns an address not in use. */
  predicate Enabled(s: State, a: Action) {
    match a
    case Alloc(_, _, _) => a.thread !in s.producers && a.addr !in s.nodes
    case Exchange(_) => a.thread in s.producers && s.producers[a.thread].Allocated?
    case LinkPrev(_) => a.thread in s.producers && s.producers[a.thread].Exchanged?
    case Load => s.consumer.Ready?
    case Take => s.consumer.Loaded?
    case Advance => s.consumer.Emptied?
    case Free => s.consumer.Stored?
  }

  function Step(s: State, a: Action): State
    requires Enabled(s, a)
  {
    match a
    case Alloc(_, _, _) => AllocStep(s, a.thread, a.addr, a.task)
    case Exchange(_) => ExchangeStep(s, a.thread)
    case LinkPrev(_) => LinkStep(s, a.thread)
    case Load => LoadStep(s)
    case Take => TakeStep(s)
    case Advance => AdvanceStep(s)
    case Free => FreeStep(s)
  }

  function AllocStep(s: State, t: ThreadId, addr: Addr, task: Task): State {
    var h := s.history;
    s.(nodes := s.nodes[addr := DataNode(Owned(task), Null)],
       producers := s.producers[t := Allocated(addr)],
       history := h.(roles := h.roles[addr := Private(t)]))
  }

  /** head_.exchange(node): the node takes its place in the queue order. */
  function ExchangeStep(s: State, t: ThreadId): State
    requires t in s.producers && s.producers[t].Allocated?
  {
    var node, h := s.producers[t].node, s.history;
    var place := |h.order|;
    if node !in s.nodes || !s.nodes[node].data.Owned? then s.(fault := true)
    else s.(
      head := node,
      producers := s.producers[t := Exchanged(node, s.head, place)],
      history := h.(order := h.order + [node], pushed := h.pushed + [s.nodes[node].data.task],
                    unlinked := h.unlinked[place := t], roles := h.roles[node := InQueue(place)]))
  }

  /** prev->next_.store(node) */
  function LinkStep(s: State, t: ThreadId): State
    requires t in s.producers && s.producers[t].Exchanged?
  {
    var prev, h := s.producers[t].prev, s.history;
    if prev !in s.nodes then s.(fault := true)
    else s.(
      nodes := s.nodes[prev := s.nodes[prev].(next := To(s.producers[t].node))],
      producers := s.producers - {t},
      history := h.(unlinked := h.unlinked - {s.producers[t].place}))
  }

  /** tail->next_.load(): null makes `dequeue` return false. */
  function LoadStep(s: State): State {
    if s.tail !in s.nodes then s.(fault := true)
    else if s.nodes[s.tail].next.Null? then s
    else s.(consumer := Loaded(s.tail, s.nodes[s.tail].next.addr))
  }

  /** output = move(*next->data_); delete next->data_ */
  function TakeStep(s: State): State
    requires s.consumer.Loaded?
  {
    var next, h := s.consumer.next, s.history;
    if next !in s.nodes || !s.nodes[next].data.Owned? then s.(fault := true)
    else s.(
      nodes := s.nodes[next := s.nodes[next].(data := Deleted)],
      consumer := Emptied(s.consumer.tail, next),
      history := h.(popped := h.popped + [s.nodes[next].data.task]))
  }

  /** tail_.store(next) */
  function AdvanceStep(s: State): State
    requires s.consumer.Emptied?
  {
    var tail, h := s.consumer.tail, s.history;
    s.(tail := s.consumer.next, consumer := Stored(tail),
       history := h.(base := h.base + 1, roles := h.roles[tail := Doomed]))
  }

  /** delete tail: freeing a dead node or one that still owns its payload is a fault. */
  function FreeStep(s: State): State
    requires s.consumer.Stored?
  {
    var tail, h := s.consumer.tail, s.history;
    if tail !in s.nodes || s.nodes[tail].data.Owned? then s.(fault := true)
    else s.(nodes := s.nodes - {tail}, consumer := Ready, history := h.(roles := h.roles - {tail}))
  }

  // ---------------------------------------------------------------- invariant

  /** Payloads moved out: one more than the tail has passed while a dequeue is between
      moving the payload out and publishing the new tail. */
  function Taken(s: State): nat {
    s.history.base + if s.consumer.Emptied? then 1 else 0
  }

  ghost predicate OrderOk(s: State) {
    var h := s.history;
    && !s.fault
    && h.base <= Taken(s) < |h.order| == |h.pushed| + 1
    && h.order[h.base] == s.tail && h.order[|h.order| - 1] == s.head
    && h.popped == h.pushed[..Taken(s)]
  }

  /** The node at a place not yet passed: live, linked to the next unless that link is
      still to be stored, and owning its task unless that was moved out. */
  ghost predicate PlaceOk(s: State, p: nat)
    requires OrderOk(s) && s.history.base <= p < |s.history.order|
  {
    var h := s.history;
    var addr := h.order[p];
    && addr in s.nodes && addr in h.roles && h.roles[addr] == InQueue(p)
    && (if p <= Taken(s) then !s.nodes[addr].data.Owned? else s.nodes[addr].data == Owned(h.pushed[p - 1]))
    && s.nodes[addr].next == (if p + 1 == |h.order| || p + 1 in h.unlinked then Null else To(h.order[p + 1]))
  }

  /** A thread inside `enqueue` owns a private node, or one whose place is unlinked. */
  ghost predicate ProducerOk(s: State, t: ThreadId)
    requires t in s.producers
  {
    var h := s.history;
    match s.producers[t]
    case Allocated(node) =>
      && node in s.nodes && node in h.roles && h.roles[node] == Private(t)
      && s.nodes[node].data.Owned? && s.nodes[node].next == Null
    case Exchanged(node, prev, place) =>
      && h.base < place < |h.order| && h.order[place] == node && h.order[place - 1] == prev
      && place in h.unlinked && h.unlinked[place] == t
  }

  ghost predicate UnlinkedOk(s: State, p: nat)
    requires p in s.history.unlinked
  {
    var t := s.history.unlinked[p];
    t in s.producers && s.producers[t].Exchanged? && s.producers[t].place == p
  }

  /** Every live node has a purpose: nothing is leaked. */
  ghost predicate RoleOk(s: State, addr: Addr)
    requires addr in s.history.roles
  {
    var h := s.history;
    match h.roles[addr]
    case InQueue(p) => h.base <= p < |h.order| && h.order[p] == addr
    case Private(t) => t in s.producers && s.producers[t] == Allocated(addr)
    case Doomed => s.consumer == Stored(addr)
  }

  ghost predicate ConsumerOk(s: State) {
    var h := s.history;
    match s.consumer
    case Ready => true
    case Loaded(tail, next) => NextIsReady(s, tail, next)
    case Emptied(tail, next) => NextIsReady(s, tail, next)
    case Stored(tail) => tail in s.nodes && !s.nodes[tail].data.Owned? && tail in h.roles && h.roles[tail] == Doomed
  }

  ghost predicate NextIsReady(s: State, tail: Addr, next: Addr) {
    var h := s.history;
    h.base + 1 < |h.order| && tail == h.order[h.base] && next == h.order[h.base + 1] && h.base + 1 !in h.unlinked
  }

  ghost predicate Inv(s: State) {
    && OrderOk(s)
    && (forall p | s.history.base <= p < |s.history.order| :: PlaceOk(s, p))
    && (forall t | t in s.producers :: ProducerOk(s, t))
    && (forall p | p in s.history.unlinked :: UnlinkedOk(s, p))
    && s.history.roles.Keys == s.nodes.Keys
    && (forall addr | addr in s.history.roles :: RoleOk(s, addr))
    && ConsumerOk(s)
  }

  lemma InitOk(dummy: Addr)
    ensures Inv(Init(dummy))
  {
  }

  lemma AllocKeepsInv(s: State, t: ThreadId, addr: Addr, task: Task)
    requires Inv(s) && t !in s.producers && addr !in s.nodes
    ensures Inv(AllocStep(s, t, addr, task))
  {
    var s' := AllocStep(s, t, addr, task);
    assert OrderOk(s') && ConsumerOk(s') && ProducerOk(s', t);
    forall p | s.history.base <= p < |s.history.order| ensures PlaceOk(s', p) {
      hide ProducerOk, RoleOk, UnlinkedOk, ConsumerOk;
      assert PlaceOk(s, p);
    }
    hide PlaceOk, OrderOk, ConsumerOk;
    forall u | u in s'.producers && u != t ensures ProducerOk(s', u) {
      hide RoleOk, UnlinkedOk;
      assert ProducerOk(s, u);
    }
    hide ProducerOk;
    forall p | p in s.history.unlinked ensures UnlinkedOk(s', p) {
      hide RoleOk;
      assert UnlinkedOk(s, p);
    }
    hide UnlinkedOk;
    forall a | a in s'.history.roles ensures RoleOk(s', a) {
      assert a != addr ==> RoleOk(s, a);
    }
    hide RoleOk;
  }

  lemma ExchangeKeepsPlaces(s: State, t: ThreadId)
    requires Inv(s) && t in s.producers && s.producers[t].Allocated?
    ensures OrderOk(ExchangeStep(s, t))
    ensures forall p | s.history.base <= p <= |s.history.order| :: PlaceOk(ExchangeStep(s, t), p)
  {
    var s' := ExchangeStep(s, t);
    assert ProducerOk(s, t);
    hide ProducerOk, RoleOk, ConsumerOk, UnlinkedOk;
    assert PlaceOk(s, |s.history.order| - 1);
    assert OrderOk(s');
    forall p | s.history.base <= p < |s.history.order| ensures PlaceOk(s', p) {
      assert PlaceOk(s, p);
    }
  }

  lemma ExchangeKeepsProducers(s: State, t: ThreadId)
    requires Inv(s) && t in s.producers && s.producers[t].Allocated?
    ensures forall u | u in ExchangeStep(s, t).producers :: ProducerOk(ExchangeStep(s, t), u)
    ensures forall p | p in ExchangeStep(s, t).history.unlinked :: UnlinkedOk(ExchangeStep(s, t), p)
  {
    var s' := ExchangeStep(s, t);
    assert ProducerOk(s, t);
    hide PlaceOk, RoleOk, ConsumerOk;
    forall p | p in s.history.unlinked ensures UnlinkedOk(s', p) {
      assert UnlinkedOk(s, p);
    }
    forall u | u in s'.producers && u != t ensures ProducerOk(s', u) {
      assert ProducerOk(s, u);
    }
  }

  lemma ExchangeKeepsInv(s: State, t: ThreadId)
    requires Inv(s) && t in s.producers && s.producers[t].Allocated?
    ensures Inv(ExchangeStep(s, t))
  {
    var s' := ExchangeStep(s, t);
    ExchangeKeepsPlaces(s, t);
    ExchangeKeepsProducers(s, t);
    assert ProducerOk(s, t);
    assert ConsumerOk(s');
    hide PlaceOk, ProducerOk, UnlinkedOk, OrderOk, ConsumerOk;
    forall addr | addr in s'.history.roles ensures RoleOk(s', addr) {
      assert RoleOk(s, addr);
    }
  }

  /** The store hits a live predecessor and turns exactly one missing link into a link. */
  lemma LinkKeepsPlaces(s: State, t: ThreadId)
    requires Inv(s) && t in s.producers && s.producers[t].Exchanged?
    ensures OrderOk(LinkStep(s, t)) && s.producers[t].prev in s.nodes
    ensures forall p | s.history.base <= p < |s.history.order| :: PlaceOk(LinkStep(s, t), p)
  {
    assert ProducerOk(s, t);
    var place := s.producers[t].place;
    assert PlaceOk(s, place - 1) && PlaceOk(s, place);
    hide ProducerOk, RoleOk, ConsumerOk, UnlinkedOk;
    var s' := LinkStep(s, t);
    assert OrderOk(s');
    forall p | s.history.base <= p < |s.history.order| ensures PlaceOk(s', p) {
      assert PlaceOk(s, p);
    }
  }

  lemma LinkKeepsProducers(s: State, t: ThreadId)
    requires Inv(s) && t in s.producers && s.producers[t].Exchanged?
    ensures forall u | u in LinkStep(s, t).producers :: ProducerOk(LinkStep(s, t), u)
    ensures forall p | p in LinkStep(s, t).history.unlinked :: UnlinkedOk(LinkStep(s, t), p)
  {
    var s' := LinkStep(s, t);
    LinkKeepsPlaces(s, t);
    assert ProducerOk(s, t) && PlaceOk(s, s.producers[t].place - 1);
    hide PlaceOk, OrderOk, RoleOk, ConsumerOk;
    forall p | p in s'.history.unlinked ensures UnlinkedOk(s', p) {
      assert p != s.producers[t].place && UnlinkedOk(s, p);
      var u := s.history.unlinked[p];
      assert s'.history.unlinked[p] == u && u != t;
      assert s'.producers[u] == s.producers[u];
    }
    forall u | u in s'.producers ensures ProducerOk(s', u) {
      assert ProducerOk(s, u);
      assert s'.producers[u] == s.producers[u];
    }
  }

  lemma LinkKeepsInv(s: State, t: ThreadId)
    requires Inv(s) && t in s.producers && s.producers[t].Exchanged?
    ensures Inv(LinkStep(s, t))
  {
    var s' := LinkStep(s, t);
    LinkKeepsPlaces(s, t);
    LinkKeepsProducers(s, t);
    assert ProducerOk(s, t);
    hide PlaceOk, OrderOk, UnlinkedOk, ProducerOk;
    forall addr | addr in s.history.roles ensures RoleOk(s', addr) {
      assert RoleOk(s, addr);
    }
    assert ConsumerOk(s');
  }

  lemma LoadKeepsInv(s: State)
    requires Inv(s) && s.consumer.Ready?
    ensures Inv(LoadStep(s))
  {
    var s' := LoadStep(s);
    assert PlaceOk(s, s.history.base);
    assert OrderOk(s') && ConsumerOk(s');
    forall p | s.history.base <= p < |s.history.order| ensures PlaceOk(s', p) {
      assert PlaceOk(s, p);
    }
    hide PlaceOk, ConsumerOk, OrderOk;
    forall t | t in s'.producers ensures ProducerOk(s', t) {
      assert ProducerOk(s, t);
    }
    hide ProducerOk;
  }

  lemma TakeKeepsInv(s: State)
    requires Inv(s) && s.consumer.Loaded?
    ensures Inv(TakeStep(s))
  {
    var s' := TakeStep(s);
    assert PlaceOk(s, s.history.base + 1);
    forall p | s.history.base <= p < |s.history.order| ensures PlaceOk(s', p) {
      assert PlaceOk(s, p);
    }
    assert OrderOk(s') && ConsumerOk(s');
    hide PlaceOk, ConsumerOk;
    forall t | t in s'.producers ensures ProducerOk(s', t) {
      assert ProducerOk(s, t);
    }
  }

  lemma AdvanceKeepsInv(s: State)
    requires Inv(s) && s.consumer.Emptied?
    ensures Inv(AdvanceStep(s))
  {
    var s' := AdvanceStep(s);
    assert PlaceOk(s, s.history.base);
    assert OrderOk(s') && ConsumerOk(s');
    forall p | s'.history.base <= p < |s'.history.order| ensures PlaceOk(s', p) {
      assert PlaceOk(s, p);
    }
    hide PlaceOk, ConsumerOk;
    forall t | t in s'.producers ensures ProducerOk(s', t) {
      assert ProducerOk(s, t);
    }
  }

  lemma FreeKeepsInv(s: State)
    requires Inv(s) && s.consumer.Stored?
    ensures Inv(FreeStep(s))
  {
    var s' := FreeStep(s);
    forall p | s'.history.base <= p < |s'.history.order| ensures PlaceOk(s', p) {
      assert PlaceOk(s, p);
    }
    forall t | t in s'.producers ensures ProducerOk(s', t) {
      assert ProducerOk(s, t);
    }
  }

  /** The invariant is inductive: every step of every thread keeps it, so no
      interleaving reaches a fault. */
  lemma StepKeepsInv(s: State, a: Action)
    requires Inv(s) && Enabled(s, a)
    ensures Inv(Step(s, a))
  {
    hide Inv;
    hide AllocStep;
    hide ExchangeStep;
    hide LinkStep;
    hide LoadStep;
    hide TakeStep;
    hide AdvanceStep;
    hide FreeStep;
    match a
    case Alloc(_, _, _) => AllocKeepsInv(s, a.thread, a.addr, a.task);
    case Exchange(_) => ExchangeKeepsInv(s, a.thread);
    case LinkPrev(_) => LinkKeepsInv(s, a.thread);
    case Load => LoadKeepsInv(s);
    case Take => TakeKeepsInv(s);
    case Advance => AdvanceKeepsInv(s);
    case Free => FreeKeepsInv(s);
  }

  // ---------------------------------------------------------------- what follows in every reachable state

  /** A run from the constructor: any interleaving of enabled steps. */
  ghost predicate Run(trace: seq<State>, actions: seq<Action>) {
    && |trace| == |actions| + 1
    && (exists dummy: Addr :: trace[0] == Init(dummy))
    && forall i | 0 <= i < |actions| :: Enabled(trace[i], actions[i]) && trace[i + 1] == Step(trace[i], actions[i])
  }

  lemma {:induction false} RunKeepsInv(trace: seq<State>, actions: seq<Action>, i: nat)
    requires Run(trace, actions) && i < |trace|
    ensures Inv(trace[i])
  {
    if i == 0 {
      var dummy: Addr :| trace[0] == Init(dummy);
      InitOk(dummy);
    } else {
      RunKeepsInv(trace, actions, i - 1);
      StepKeepsInv(trace[i - 1], actions[i - 1]);
    }
  }

  /** The two histories only ever grow at the end. */
  lemma {:induction false} HistoryGrows(trace: seq<State>, actions: seq<Action>, i: nat, j: nat)
    requires Run(trace, actions) && i <= j < |trace|
    ensures trace[i].history.pushed <= trace[j].history.pushed
    ensures trace[i].history.popped <= trace[j].history.popped
  {
    hide Step, Enabled, Init;
    if i < j {
      HistoryGrows(trace, actions, i, j - 1);
      StepGrows(trace[j - 1], actions[j - 1]);
    }
  }

  lemma StepGrows(s: State, a: Action)
    requires Enabled(s, a)
    ensures s.history.pushed <= Step(s, a).history.pushed && s.history.popped <= Step(s, a).history.popped
  {
  }

  /** FIFO and memory safety over every interleaving: what was dequeued is a prefix of
      the exchange order, no step ever touched dead memory, freed twice or leaked. */
  lemma DequeuedIsPrefix(trace: seq<State>, actions: seq<Action>, i: nat)
    requires Run(trace, actions) && i < |trace|
    ensures trace[i].history.popped <= trace[|actions|].history.pushed
    ensures !trace[i].fault
  {
    RunKeepsInv(trace, actions, i);
    HistoryGrows(trace, actions, i, |actions|);
  }

  /** Some producer has exchanged its node in right behind the dummy and not linked it yet. */
  ghost predicate Stalled(s: State) {
    exists t: ThreadId :: BehindDummy(s, t)
  }

  ghost predicate BehindDummy(s: State, t: ThreadId) {
    t in s.producers && s.producers[t].Exchanged? && s.producers[t].prev == s.tail
  }

  lemma StalledIff(s: State)
    requires Inv(s) && !s.consumer.Emptied?
    ensures Stalled(s) <==> s.history.base + 1 in s.history.unlinked
  {
    var h := s.history;
    if h.base + 1 in h.unlinked {
      assert UnlinkedOk(s, h.base + 1);
      var t := h.unlinked[h.base + 1];
      assert ProducerOk(s, t) && BehindDummy(s, t);
    }
    if Stalled(s) {
      var t: ThreadId :| BehindDummy(s, t);
      assert ProducerOk(s, t);
      assert PlaceOk(s, h.base) && PlaceOk(s, s.producers[t].place - 1);
    }
  }

  /** `dequeue` (and `empty`) see nothing exactly when nothing is pending or the oldest
      pending node is not linked yet; otherwise they see the oldest pending task. */
  lemma LoadFailsIff(s: State)
    requires Inv(s) && s.consumer.Ready?
    ensures s.tail in s.nodes
    ensures s.nodes[s.tail].next == Null <==> s.history.popped == s.history.pushed || Stalled(s)
    ensures s.nodes[s.tail].next != Null ==>
      && |s.history.popped| < |s.history.pushed| && LoadStep(s).consumer.Loaded?
      && TakeStep(LoadStep(s)).history.popped == s.history.popped + [s.history.pushed[|s.history.popped|]]
  {
    var h := s.history;
    StalledIff(s);
    assert PlaceOk(s, h.base);
    if h.base + 1 < |h.order| {
      assert PlaceOk(s, h.base + 1);
    }
  }

  /** With nobody inside an operation the live nodes are exactly the dummy and the pending ones. */
  lemma QuiescentHeap(s: State)
    requires Inv(s) && s.producers == map[] && s.consumer.Ready?
    ensures s.nodes.Keys == set p | s.history.base <= p < |s.history.order| :: s.history.order[p]
    ensures s.history.unlinked == map[]
  {
    var h := s.history;
    forall p | h.base <= p < |h.order| ensures h.order[p] in s.nodes {
      assert PlaceOk(s, p);
    }
    forall addr | addr in s.nodes ensures exists p :: h.base <= p < |h.order| && h.order[p] == addr {
      assert RoleOk(s, addr);
    }
    forall p: nat ensures p !in h.unlinked {
      assert p in h.unlinked ==> UnlinkedOk(s, p);
    }
  }

  lemma PoppedIsPrefix(s: State)
    requires Inv(s)
    ensures s.history.popped <= s.history.pushed
  {
  }

  lemma DrainedHeap(s: State)
    requires Inv(s) && s.producers == map[] && s.consumer.Ready? && |s.history.popped| == |s.history.pushed|
    ensures s.nodes.Keys == {s.head}
  {
    QuiescentHeap(s);
  }

  // ---------------------------------------------------------------- whole calls

  function Enqueued(s: State, t: ThreadId, addr: Addr, task: Task): State
    requires Inv(s) && t !in s.producers && addr !in s.nodes
  {
    AllocKeepsInv(s, t, addr, task);
    var s1 := AllocStep(s, t, addr, task);
    ExchangeKeepsInv(s1, t);
    assert ProducerOk(s1, t);
    LinkStep(ExchangeStep(s1, t), t)
  }

  lemma HeadIsLive(s: State)
    requires Inv(s)
    ensures s.head in s.nodes && !s.fault
  {
    assert PlaceOk(s, |s.history.order| - 1);
  }

  lemma EnqueuedKeepsInv(s: State, t: ThreadId, addr: Addr, task: Task)
    requires Inv(s) && t !in s.producers && addr !in s.nodes
    ensures Inv(Enqueued(s, t, addr, task))
  {
    AllocKeepsInv(s, t, addr, task);
    var s1 := AllocStep(s, t, addr, task);
    ExchangeKeepsInv(s1, t);
    assert ProducerOk(s1, t);
    var s2 := ExchangeStep(s1, t);
    assert t in s2.producers && s2.producers[t].Exchanged?;
    hide Inv, AllocStep, ExchangeStep, LinkStep;
    LinkKeepsInv(s2, t);
  }

  /** An undisturbed `enqueue`, step by step on the heap. */
  lemma EnqueuedIs(s: State, t: ThreadId, addr: Addr, task: Task)
    requires Inv(s) && t !in s.producers && addr !in s.nodes
    ensures s.head in s.nodes && s.head != addr
    ensures
      var s' := Enqueued(s, t, addr, task);
      && s'.nodes == s.nodes[addr := DataNode(Owned(task), Null)][s.head := s.nodes[s.head].(next := To(addr))]
      && s'.head == addr && s'.tail == s.tail && s'.producers == s.producers && s'.consumer == s.consumer
      && s'.history.pushed == s.history.pushed + [task] && s'.history.popped == s.history.popped
  {
    HeadIsLive(s);
    hide Inv;
    assert (s.producers[t := Allocated(addr)][t := Exchanged(addr, s.head, |s.history.order|)] - {t}) == s.producers;
  }

  function Dequeued(s: State): State
    requires Inv(s) && s.consumer.Ready? && s.tail in s.nodes && s.nodes[s.tail].next.To?
  {
    LoadKeepsInv(s);
    TakeKeepsInv(LoadStep(s));
    LoadFailsIff(s);
    FreeStep(AdvanceStep(TakeStep(LoadStep(s))))
  }

  /** An undisturbed successful `dequeue`. */
  lemma DequeuedIs(s: State)
    requires Inv(s) && s.consumer.Ready? && s.tail in s.nodes && s.nodes[s.tail].next.To?
    ensures
      var next := s.nodes[s.tail].next.addr;
      var s' := Dequeued(s);
      && Inv(s')
      && next in s.nodes && s.nodes[next].data.Owned?
      && s'.nodes == s.nodes[next := s.nodes[next].(data := Deleted)] - {s.tail}
      && s'.head == s.head && s'.tail == next && s'.producers == s.producers && s'.consumer == Ready && !s'.fault
      && s'.history.pushed == s.history.pushed
      && |s.history.popped| < |s.history.pushed|
      && s.nodes[next].data.task == s.history.pushed[|s.history.popped|]
      && s'.history.popped == s.history.popped + [s.nodes[next].data.task]
  {
    LoadFailsIff(s);
    LoadKeepsInv(s);
    var s1 := LoadStep(s);
    assert PlaceOk(s1, s1.history.base + 1);
    TakeKeepsInv(s1);
    AdvanceKeepsInv(TakeStep(s1));
    FreeKeepsInv(AdvanceStep(TakeStep(s1)));
    hide PlaceOk, ProducerOk, OrderOk;
  }
}
