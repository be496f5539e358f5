/** What the queue's order means to one sender: the tasks a thread queues run in the
    order of its calls, whatever the other threads do. A block handed to `send` from
    outside the loop is one task, so it is never split. */
module SendOrder {
  import opened QueueProtocol

  /** The tasks one thread has called `enqueue` with, in order. */
  function Calls(actions: seq<Action>, t: ThreadId): seq<Task> {
    if actions == [] then []
    else
      var a := actions[|actions| - 1];
      Calls(actions[..|actions| - 1], t) + if a.Alloc? && a.thread == t then [a.task] else []
  }

  predicate Owns(owner: map<Task, ThreadId>, t: ThreadId, task: Task) { task in owner && owner[task] == t }

  /** The tasks of thread t among those of all threads. */
  function OfThread(tasks: seq<Task>, owner: map<Task, ThreadId>, t: ThreadId): seq<Task> {
    if tasks == [] then []
    else
      var last := tasks[|tasks| - 1];
      OfThread(tasks[..|tasks| - 1], owner, t) + if Owns(owner, t, last) then [last] else []
  }

  lemma CallsGrow(calls: seq<Action>, a: Action, t: ThreadId)
    ensures Calls(calls + [a], t) == Calls(calls, t) + if a.Alloc? && a.thread == t then [a.task] else []
  {
    assert (calls + [a])[..|calls|] == calls;
  }

  lemma OfThreadGrows(tasks: seq<Task>, task: Task, owner: map<Task, ThreadId>, t: ThreadId)
    ensures OfThread(tasks + [task], owner, t) == OfThread(tasks, owner, t) + if Owns(owner, t, task) then [task] else []
  {
    assert (tasks + [task])[..|tasks|] == tasks;
  }

  /** A call of thread t that has not reached the exchange of head yet. */
  function InFlight(s: State, t: ThreadId): seq<Task> {
    if t in s.producers && s.producers[t].Allocated? && s.producers[t].node in s.nodes
       && s.nodes[s.producers[t].node].data.Owned?
    then [s.nodes[s.producers[t].node].data.task]
    else []
  }

  /** Threads queue different tasks: a task is the identity of one callback. */
  ghost predicate OwnTasks(actions: seq<Action>, owner: map<Task, ThreadId>) {
    forall i | 0 <= i < |actions| && actions[i].Alloc? :: Owns(owner, actions[i].thread, actions[i].task)
  }

  /** Alloc and Exchange change their own thread's call in flight, Exchange the queue. */
  lemma OwnStepInFlight(s: State, a: Action)
    requires Inv(s) && Enabled(s, a)
    ensures a.Alloc? ==> InFlight(s, a.thread) == [] && InFlight(Step(s, a), a.thread) == [a.task]
    ensures a.Exchange? ==> InFlight(Step(s, a), a.thread) == [] && |InFlight(s, a.thread)| == 1
    ensures a.Exchange? ==> Step(s, a).history.pushed == s.history.pushed + InFlight(s, a.thread)
    ensures !a.Exchange? ==> Step(s, a).history.pushed == s.history.pushed
  {
    if a.Exchange? {
      assert ProducerOk(s, a.thread);
    }
    hide PlaceOk, ProducerOk, RoleOk, UnlinkedOk, ConsumerOk;
  }

  /** No other step changes the call in flight of a thread. */
  lemma OtherStepInFlight(s: State, a: Action, t: ThreadId)
    requires Inv(s) && Enabled(s, a) && !((a.Alloc? || a.Exchange?) && a.thread == t)
    ensures InFlight(Step(s, a), t) == InFlight(s, t)
  {
    if t in s.producers {
      assert ProducerOk(s, t);
    }
    if a.Exchange? || a.LinkPrev? {
      assert ProducerOk(s, a.thread);
    }
    hide ProducerOk, UnlinkedOk;
    if a.Take? {
      assert PlaceOk(s, s.history.base + 1);
    }
    if a.LinkPrev? {
      assert PlaceOk(s, s.producers[a.thread].place - 1);
    }
    hide PlaceOk, RoleOk;
  }

  lemma {:induction false} OfThreadPrefix(a: seq<Task>, b: seq<Task>, owner: map<Task, ThreadId>, t: ThreadId)
    requires a <= b
    ensures OfThread(a, owner, t) <= OfThread(b, owner, t)
    decreases |b|
  {
    if |a| < |b| {
      OfThreadPrefix(a, b[..|b| - 1], owner, t);
    } else {
      assert a == b;
    }
  }

  /** The exchanged tasks of thread t and its call in flight are its calls so far, in order. */
  ghost predicate InCallOrder(s: State, calls: seq<Action>, owner: map<Task, ThreadId>, t: ThreadId) {
    && OfThread(s.history.pushed, owner, t) + InFlight(s, t) == Calls(calls, t)
    && forall task | task in InFlight(s, t) :: Owns(owner, t, task)
  }

  lemma StepInCallOrder(s: State, a: Action, calls: seq<Action>, owner: map<Task, ThreadId>, t: ThreadId)
    requires Inv(s) && Enabled(s, a) && (a.Alloc? ==> Owns(owner, a.thread, a.task))
    requires InCallOrder(s, calls, owner, t) && (a.Exchange? ==> InCallOrder(s, calls, owner, a.thread))
    ensures InCallOrder(Step(s, a), calls + [a], owner, t)
  {
    hide Inv, Step, Enabled, InFlight, OfThread, Calls;
    OwnStepInFlight(s, a);
    if !((a.Alloc? || a.Exchange?) && a.thread == t) {
      OtherStepInFlight(s, a, t);
    }
    CallsGrow(calls, a, t);
    if a.Exchange? {
      var task := InFlight(s, a.thread)[0];
      OfThreadGrows(s.history.pushed, task, owner, t);
      assert InFlight(s, a.thread) == [task] && Owns(owner, a.thread, task);
    }
  }

  lemma StartsInCallOrder(trace: seq<State>, actions: seq<Action>, owner: map<Task, ThreadId>, t: ThreadId)
    requires Run(trace, actions)
    ensures InCallOrder(trace[0], [], owner, t)
  {
    assert trace[0].history.pushed == [] && trace[0].producers == map[];
  }

  lemma NextInCallOrder(trace: seq<State>, actions: seq<Action>, owner: map<Task, ThreadId>, i: nat, t: ThreadId)
    requires Run(trace, actions) && OwnTasks(actions, owner) && i < |actions|
    requires InCallOrder(trace[i], actions[..i], owner, t)
    requires actions[i].Exchange? ==> InCallOrder(trace[i], actions[..i], owner, actions[i].thread)
    ensures InCallOrder(trace[i + 1], actions[..i + 1], owner, t)
  {
    assert Enabled(trace[i], actions[i]) && trace[i + 1] == Step(trace[i], actions[i]);
    assert actions[i].Alloc? ==> Owns(owner, actions[i].thread, actions[i].task);
    hide *;
    RunKeepsInv(trace, actions, i);
    StepInCallOrder(trace[i], actions[i], actions[..i], owner, t);
    assert actions[..i + 1] == actions[..i] + [actions[i]];
  }

  /** This holds at every moment of every interleaving. */
  lemma {:induction false} AlwaysInCallOrder(
    trace: seq<State>, actions: seq<Action>, owner: map<Task, ThreadId>, i: nat, t: ThreadId)
    requires Run(trace, actions) && OwnTasks(actions, owner) && i < |trace|
    ensures InCallOrder(trace[i], actions[..i], owner, t)
    decreases i
  {
    assert |trace| == |actions| + 1;
    hide *;
    if i == 0 {
      StartsInCallOrder(trace, actions, owner, t);
      assert actions[..0] == [];
    } else {
      var a := actions[i - 1];
      AlwaysInCallOrder(trace, actions, owner, i - 1, t);
      AlwaysInCallOrder(trace, actions, owner, i - 1, if a.Exchange? then a.thread else t);
      NextInCallOrder(trace, actions, owner, i - 1, t);
    }
  }

  /** What has run of a thread's tasks is a prefix of its calls: none is skipped,
      repeated or overtaken by a later one. */
  lemma RunsInCallOrder(
    trace: seq<State>, actions: seq<Action>, owner: map<Task, ThreadId>, i: nat, t: ThreadId)
    requires Run(trace, actions) && OwnTasks(actions, owner) && i < |trace|
    ensures OfThread(trace[i].history.popped, owner, t) <= Calls(actions[..i], t)
  {
    RunKeepsInv(trace, actions, i);
    PoppedIsPrefix(trace[i]);
    OfThreadPrefix(trace[i].history.popped, trace[i].history.pushed, owner, t);
    AlwaysInCallOrder(trace, actions, owner, i, t);
  }
}
