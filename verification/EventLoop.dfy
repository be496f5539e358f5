/** The event loop's wakeup protocol over the lock-free queue: the phases of `start`,
    `queueInLoop` and `stop` called from any thread, one atomic step at a time. */
module EventLoopProtocol {
  import Q = QueueProtocol
  type ThreadId = Q.ThreadId

  /** The thread that runs the loop; it also queues tasks, from inside callbacks. */
  const LOOP: ThreadId := 0

  /** Where the loop thread is in `start`. */
  datatype Phase =
    | Stopped                      // outside the while loop
    | Timers                       // in handlerTimer, timer callbacks may run
    | Polling                      // in epoll_wait
    | Handling(wakeReady: bool)    // dispatching ready channels; was the wakeup channel among them
    | Checking                     // about to test customEvents_.empty()
    | Draining                     // in the inner dequeue loop, tasks may run
    | Top                          // found the queue empty, about to test isRunning()

  datatype State = State(
    queue: Q.State,
    eventfd: nat,
    linked: set<ThreadId>,   // done with `enqueue` (or with setting stop), still to decide on and do `wakeup`
    phase: Phase,
    running: bool,
    timerQueued: bool,       // history: a timer callback has queued a task since the last drain
    timerStopped: bool)      // history: a timer callback has called stop since the last drain

  datatype Event =
    | Enqueue(action: Q.Action)    // one step of some thread inside queueInLoop
    | Wake(thread: ThreadId)       // `if (!isInLoopThread() || isStop()) wakeup()`
    | RequestStop(thread: ThreadId)
    | Start
    | TimersDone
    | PollReturns(wakeReady: bool)
    | ReadWakeup
    | HandlersDone
    | CheckEmpty
    | Dequeue(action: Q.Action)    // one step of the loop thread inside dequeue
    | TestRunning

  function Init(dummy: Q.Addr): State {
    State(Q.Init(dummy), 0, {}, Stopped, false, false, false)
  }

  predicate LoopIdle(s: State) {
    LOOP !in s.queue.producers && LOOP !in s.linked
  }

  /** Phases in which user code runs on the loop thread. */
  predicate InCallback(s: State) {
    s.phase.Stopped? || s.phase.Timers? || s.phase.Handling? || (s.phase.Draining? && s.queue.consumer.Ready?)
  }

  predicate IsEnqueueStep(a: Q.Action) {
    a.Alloc? || a.Exchange? || a.LinkPrev?
  }

  predicate Enabled(s: State, e: Event) {
    match e
    case Enqueue(_) =>
      && IsEnqueueStep(e.action) && Q.Enabled(s.queue, e.action) && e.action.thread !in s.linked
      && (e.action.thread == LOOP ==> InCallback(s))
    case Wake(_) => e.thread in s.linked
    case RequestStop(_) =>
      && s.running && e.thread !in s.linked && e.thread !in s.queue.producers
      && (e.thread == LOOP ==> InCallback(s))
    case Start => s.phase.Stopped? && LoopIdle(s)
    case TimersDone => s.phase.Timers? && LoopIdle(s)
    case PollReturns(_) => s.phase.Polling? && (e.wakeReady ==> s.eventfd > 0)
    case ReadWakeup => s.phase == Handling(true) && LoopIdle(s)
    case HandlersDone => s.phase == Handling(false) && LoopIdle(s)
    case CheckEmpty => s.phase.Checking? && s.queue.tail in s.queue.nodes
    case Dequeue(_) =>
      && s.phase.Draining? && LoopIdle(s) && !IsEnqueueStep(e.action) && Q.Enabled(s.queue, e.action)
      && s.queue.tail in s.queue.nodes
    case TestRunning => s.phase.Top?
  }

  /** `customEvents_.empty()` is false. */
  predicate Visible(s: State) {
    s.queue.tail in s.queue.nodes && s.queue.nodes[s.queue.tail].next.To?
  }

  function Step(s: State, e: Event): State
    requires Enabled(s, e)
  {
    match e
    case Enqueue(_) => EnqueueStep(s, e.action)
    case Wake(_) =>
      s.(linked := s.linked - {e.thread},
         eventfd := if e.thread != LOOP || !s.running then s.eventfd + 1 else s.eventfd)
    case RequestStop(_) =>
      s.(running := false,
         linked := if e.thread != LOOP then s.linked + {e.thread} else s.linked,
         timerStopped := s.timerStopped || (e.thread == LOOP && s.phase.Timers?))
    case Start => s.(phase := Timers, running := true)
    case TimersDone => s.(phase := Polling)
    case PollReturns(_) => s.(phase := Handling(e.wakeReady))
    case ReadWakeup => s.(phase := Handling(false), eventfd := 0)
    case HandlersDone => s.(phase := Checking)
    case CheckEmpty =>
      if Visible(s) then s.(phase := Draining)
      else s.(phase := Top, timerQueued := false, timerStopped := false)
    case Dequeue(_) =>
      s.(queue := Q.Step(s.queue, e.action),
         phase := if e.action.Load? && !Visible(s) then Checking else Draining)
    case TestRunning => s.(phase := if s.running then Timers else Stopped)
  }

  /** enqueue's three steps; the third leaves the thread to decide on the wakeup. */
  function EnqueueStep(s: State, a: Q.Action): State
    requires IsEnqueueStep(a) && Q.Enabled(s.queue, a)
  {
    s.(queue := Q.Step(s.queue, a),
       linked := if a.LinkPrev? then s.linked + {a.thread} else s.linked,
       timerQueued := s.timerQueued || (a.thread == LOOP && s.phase.Timers? && !a.Alloc?))
  }

  // ---------------------------------------------------------------- invariant

  /** Between a drain that found the queue empty and the return of poll (or before start). */
  predicate Sleepy(s: State) {
    s.phase.Stopped? || s.phase.Top? || s.phase.Timers? || s.phase.Polling?
  }

  /** Something will make the next poll return, or a timer callback of this round spoiled it. */
  predicate Covered(s: State) {
    s.eventfd > 0 || s.linked - {LOOP} != {} || s.timerQueued || (s.phase.Stopped? && LOOP in s.linked)
  }

  ghost predicate Inv(s: State) {
    && Q.Inv(s.queue)
    && (!s.phase.Draining? ==> s.queue.consumer.Ready?)
    && (!InCallback(s) ==> LoopIdle(s))
    && (s.phase.Stopped? ==> !s.running)
    && (Sleepy(s) && Visible(s) ==> Covered(s))
    && (Sleepy(s) && s.timerQueued ==> |s.queue.history.popped| < |s.queue.history.pushed|)
    && ((s.phase.Timers? || s.phase.Polling?) && !s.running ==>
          s.eventfd > 0 || s.linked - {LOOP} != {} || s.timerStopped)
    && (s.phase.Timers? && LOOP in s.queue.producers && s.queue.producers[LOOP].Exchanged? ==> s.timerQueued)
    && (s.timerStopped ==> !s.running && !s.phase.Stopped? && !s.phase.Top?)
    && (forall t | t in s.linked :: t !in s.queue.producers)
  }

  lemma InitOk(dummy: Q.Addr)
    ensures Inv(Init(dummy))
  {
    Q.InitOk(dummy);
  }

  /** Every loop step is a step of the queue protocol or leaves the queue alone. */
  lemma QueueKeepsInv(s: State, e: Event)
    requires Inv(s) && Enabled(s, e)
    ensures Q.Inv(Step(s, e).queue)
  {
    match e
    case Enqueue(_) => Q.StepKeepsInv(s.queue, e.action);
    case Dequeue(_) => Q.StepKeepsInv(s.queue, e.action);
    case _ =>
  }

  /** What a producer's step does to the link the consumer looks at. */
  lemma EnqueueStepFacts(q: Q.State, a: Q.Action)
    requires Q.Inv(q) && Q.Enabled(q, a) && IsEnqueueStep(a)
    ensures
      var q' := Q.Step(q, a);
      && q.tail in q.nodes && q.tail in q'.nodes && q'.tail == q.tail && q'.consumer == q.consumer
      && (!a.LinkPrev? ==> q'.nodes[q.tail].next == q.nodes[q.tail].next)
      && q'.history.popped == q.history.popped
      && |q'.history.pushed| >= |q.history.pushed|
      && (q.consumer.Ready? && !a.Alloc? ==> |q'.history.popped| < |q'.history.pushed|)
      && (forall t | t != a.thread :: t in q'.producers <==> t in q.producers)
      && (forall t | t != a.thread && t in q.producers :: q'.producers[t] == q.producers[t])
      && (a.Alloc? ==> a.thread in q'.producers && q'.producers[a.thread].Allocated?)
      && (a.LinkPrev? ==> a.thread !in q'.producers)
  {
    assert Q.PlaceOk(q, q.history.base);
    if !a.Alloc? {
      assert Q.ProducerOk(q, a.thread);
    }
    if a.LinkPrev? {
      assert Q.PlaceOk(q, q.producers[a.thread].place - 1);
    }
  }

  lemma DequeueStepFacts(q: Q.State, a: Q.Action)
    requires Q.Enabled(q, a) && !IsEnqueueStep(a) && q.tail in q.nodes
    ensures Q.Step(q, a).producers == q.producers
    ensures a.Load? && q.nodes[q.tail].next.Null? ==> Q.Step(q, a) == q && q.consumer.Ready?
  {
  }

  /** A task becomes visible only with a link, whose thread then decides on a wakeup. */
  lemma EnqueueKeepsCover(s: State, e: Event)
    requires Inv(s) && Enabled(s, e) && e.Enqueue?
    ensures Sleepy(s) && Visible(Step(s, e)) ==> Covered(Step(s, e))
    ensures s.linked - {LOOP} <= Step(s, e).linked - {LOOP}
  {
    EnqueueStepFacts(s.queue, e.action);
    hide Q.Inv, Q.Step, Q.Enabled;
    if e.action.LinkPrev? && e.action.thread != LOOP {
      assert e.action.thread in Step(s, e).linked - {LOOP};
    }
  }

  lemma EnqueueKeepsInv(s: State, e: Event)
    requires Inv(s) && Enabled(s, e) && e.Enqueue?
    ensures Inv(Step(s, e))
  {
    QueueKeepsInv(s, e);
    EnqueueStepFacts(s.queue, e.action);
    EnqueueKeepsCover(s, e);
    hide Q.Inv, Q.Step, Q.Enabled, Visible, Covered;
  }

  lemma DequeueKeepsInv(s: State, e: Event)
    requires Inv(s) && Enabled(s, e) && e.Dequeue?
    ensures Inv(Step(s, e))
  {
    QueueKeepsInv(s, e);
    DequeueStepFacts(s.queue, e.action);
    hide Q.Inv, Q.Step, Q.Enabled;
  }

  /** No interleaving of the loop with any number of other threads breaks the invariant. */
  lemma StepKeepsInv(s: State, e: Event)
    requires Inv(s) && Enabled(s, e)
    ensures Inv(Step(s, e))
  {
    match e
    case Enqueue(_) => EnqueueKeepsInv(s, e);
    case Dequeue(_) => DequeueKeepsInv(s, e);
    case Wake(_) =>
      hide Q.Inv;
      if e.thread == LOOP { assert Step(s, e).linked - {LOOP} == s.linked - {LOOP}; }
    case RequestStop(_) =>
      hide Q.Inv;
      if e.thread != LOOP { assert e.thread in Step(s, e).linked - {LOOP}; }
    case _ =>
      hide Q.Inv;
  }

  ghost predicate Run(trace: seq<State>, events: seq<Event>) {
    && |trace| == |events| + 1
    && (exists dummy: Q.Addr :: trace[0] == Init(dummy))
    && forall i | 0 <= i < |events| :: Enabled(trace[i], events[i]) && trace[i + 1] == Step(trace[i], events[i])
  }

  lemma {:induction false} RunKeepsInv(trace: seq<State>, events: seq<Event>, i: nat)
    requires Run(trace, events) && i < |trace|
    ensures Inv(trace[i])
  {
    hide Inv, Step, Enabled;
    if i == 0 {
      var dummy: Q.Addr :| trace[0] == Init(dummy);
      InitOk(dummy);
    } else {
      RunKeepsInv(trace, events, i - 1);
      StepKeepsInv(trace[i - 1], events[i - 1]);
    }
  }

  lemma RunSteps(trace: seq<State>, events: seq<Event>, i: nat)
    requires Run(trace, events) && i < |events|
    ensures Enabled(trace[i], events[i]) && trace[i + 1] == Step(trace[i], events[i])
  {
    hide Enabled, Step, Init;
  }

  /** What a timer callback can do that writes no wakeup. */
  datatype Deed = Queues | Stops

  predicate DoneByTimer(s: State, e: Event, d: Deed) {
    s.phase.Timers? &&
    match d
    case Queues => e.Enqueue? && (e.action.Exchange? || e.action.LinkPrev?) && e.action.thread == LOOP
    case Stops => e == RequestStop(LOOP)
  }

  /** A timer callback has done it since the loop last found its queue empty. */
  ghost predicate TimerDid(trace: seq<State>, events: seq<Event>, i: nat, d: Deed)
    requires |trace| == |events| + 1 && i <= |events|
  {
    i > 0
    && (DoneByTimer(trace[i - 1], events[i - 1], d)
        || (TimerDid(trace, events, i - 1, d) && !(events[i - 1] == CheckEmpty && trace[i].phase.Top?)))
  }

  lemma StepFlags(s: State, e: Event)
    requires Enabled(s, e)
    ensures
      var s' := Step(s, e);
      var emptied := e == CheckEmpty && s'.phase.Top?;
      && (s'.timerQueued <==> DoneByTimer(s, e, Queues) || (s.timerQueued && !emptied))
      && (s'.timerStopped <==> DoneByTimer(s, e, Stops) || (s.timerStopped && !emptied))
  {
    hide Q.Step, Q.Enabled;
  }

  lemma {:induction false} FlagsMean(trace: seq<State>, events: seq<Event>, i: nat)
    requires Run(trace, events) && i < |trace|
    ensures trace[i].timerQueued <==> TimerDid(trace, events, i, Queues)
    ensures trace[i].timerStopped <==> TimerDid(trace, events, i, Stops)
    decreases i
  {
    if i == 0 {
      var dummy: Q.Addr :| trace[0] == Init(dummy);
    } else {
      hide Run, Step, Enabled, DoneByTimer;
      FlagsMean(trace, events, i - 1);
      RunSteps(trace, events, i - 1);
      StepFlags(trace[i - 1], events[i - 1]);
    }
  }

  // ---------------------------------------------------------------- no lost wakeup

  /** Another thread is inside queueInLoop behind its exchange, or still to write the eventfd. */
  ghost predicate WakeupToCome(s: State) {
    s.linked - {LOOP} != {} || exists t: ThreadId :: Committed(s, t)
  }

  /** Outside `start` the loop's own thread writes the eventfd for what it queues, too. */
  predicate WakesItself(s: State) {
    s.phase.Stopped? && (LOOP in s.linked || LOOP in s.queue.producers)
  }

  ghost predicate Committed(s: State, t: ThreadId) {
    t != LOOP && t in s.queue.producers && s.queue.producers[t].Exchanged?
  }

  /** From the moment the loop finds the queue empty (or has not started) to the return of
      poll, a task it could dequeue has a wakeup posted or about to be posted by a thread
      past its link, unless a timer callback queued in this round. */
  lemma NoLostWakeup(trace: seq<State>, events: seq<Event>, i: nat)
    requires Run(trace, events) && i < |trace| && Sleepy(trace[i])
    requires !TimerDid(trace, events, i, Queues)
    ensures Visible(trace[i]) ==>
      trace[i].eventfd > 0 || trace[i].linked - {LOOP} != {} || (trace[i].phase.Stopped? && LOOP in trace[i].linked)
  {
    RunKeepsInv(trace, events, i);
    FlagsMean(trace, events, i);
  }

  /** Even a task hidden behind a gap in the chain, whose own wakeup may have been
      consumed long ago, still has a wakeup to come: the gap's. */
  lemma NoStrandedTask(trace: seq<State>, events: seq<Event>, i: nat)
    requires Run(trace, events) && i < |trace| && Sleepy(trace[i])
    requires !TimerDid(trace, events, i, Queues)
    ensures trace[i].queue.history.popped != trace[i].queue.history.pushed ==>
      trace[i].eventfd > 0 || WakeupToCome(trace[i]) || WakesItself(trace[i])
  {
    var s := trace[i];
    RunKeepsInv(trace, events, i);
    FlagsMean(trace, events, i);
    hide Run, TimerDid, Step;
    Q.LoadFailsIff(s.queue);
    if Q.Stalled(s.queue) {
      var t: ThreadId :| Q.BehindDummy(s.queue, t);
      assert t == LOOP || Committed(s, t);
    }
  }

  /** The exact condition: asleep with an idle eventfd and nobody else inside
      queueInLoop, the queue holds a task if and only if a timer callback queued one in
      this round (queueInLoop on the loop thread writes no wakeup there). */
  lemma SleepsOnTaskIff(trace: seq<State>, events: seq<Event>, i: nat)
    requires Run(trace, events) && i < |trace| && trace[i].phase.Polling?
    requires trace[i].eventfd == 0 && !WakeupToCome(trace[i])
    ensures trace[i].queue.history.popped != trace[i].queue.history.pushed <==> TimerDid(trace, events, i, Queues)
  {
    RunKeepsInv(trace, events, i);
    FlagsMean(trace, events, i);
    if !trace[i].timerQueued {
      NoStrandedTask(trace, events, i);
    }
  }

  /** The condition is not idle: in this run a timer callback queues a task, the loop
      goes to poll, and that task lies there with the eventfd at 0 and no thread to write it. */
  lemma TimerTaskSleeps(dummy: Q.Addr, addr: Q.Addr, task: Q.Task) returns (trace: seq<State>, events: seq<Event>)
    requires addr != dummy
    ensures Run(trace, events)
    ensures
      var s := trace[|trace| - 1];
      && s.phase.Polling? && s.running && Visible(s) && s.queue.history.pushed == [task] && s.queue.history.popped == []
      && s.eventfd == 0 && !WakeupToCome(s)
  {
    var s0 := Init(dummy);
    var s1 := Step(s0, Start);
    var s2 := Step(s1, Enqueue(Q.Alloc(LOOP, addr, task)));
    var s3 := Step(s2, Enqueue(Q.Exchange(LOOP)));
    var s4 := Step(s3, Enqueue(Q.LinkPrev(LOOP)));
    var s5 := Step(s4, Wake(LOOP));
    var s6 := Step(s5, TimersDone);
    trace := [s0, s1, s2, s3, s4, s5, s6];
    events := [Start, Enqueue(Q.Alloc(LOOP, addr, task)), Enqueue(Q.Exchange(LOOP)), Enqueue(Q.LinkPrev(LOOP)),
               Wake(LOOP), TimersDone];
    assert trace[0] == Init(dummy);
  }

  /** A requested stop gets the loop out of poll, unless a timer callback of this round
      requested it: asleep with an idle eventfd and nobody about to write it, the loop has
      been told to stop if and only if a timer callback did. */
  lemma SleepsOnStopIff(trace: seq<State>, events: seq<Event>, i: nat)
    requires Run(trace, events) && i < |trace| && trace[i].phase.Polling?
    requires trace[i].eventfd == 0 && trace[i].linked - {LOOP} == {}
    ensures !ToldToRun(events[..i]) <==> TimerDid(trace, events, i, Stops)
  {
    RunKeepsInv(trace, events, i);
    FlagsMean(trace, events, i);
    EventfdCounts(trace, events, i);
  }

  /** In this run a timer callback stops the loop, which goes to poll all the same. */
  lemma TimerStopSleeps(dummy: Q.Addr) returns (trace: seq<State>, events: seq<Event>)
    ensures Run(trace, events)
    ensures
      var s := trace[|trace| - 1];
      s.phase.Polling? && !s.running && s.eventfd == 0 && !WakeupToCome(s)
  {
    var s0 := Init(dummy);
    var s1 := Step(s0, Start);
    var s2 := Step(s1, RequestStop(LOOP));
    var s3 := Step(s2, TimersDone);
    trace := [s0, s1, s2, s3];
    events := [Start, RequestStop(LOOP), TimersDone];
    assert trace[0] == Init(dummy);
  }

  /** Tasks run in the order in which their nodes were exchanged in, each once. */
  lemma TasksRunInOrder(trace: seq<State>, events: seq<Event>, i: nat)
    requires Run(trace, events) && i < |trace|
    ensures trace[i].queue.history.popped <= trace[i].queue.history.pushed && !trace[i].queue.fault
  {
    RunKeepsInv(trace, events, i);
    Q.PoppedIsPrefix(trace[i].queue);
    Q.HeadIsLive(trace[i].queue);
  }

  // ---------------------------------------------------------------- the eventfd and stopping, from the events alone

  /** Started more recently than asked to stop. */
  predicate ToldToRun(events: seq<Event>) {
    events != [] &&
    match events[|events| - 1]
    case Start => true
    case RequestStop(_) => false
    case _ => ToldToRun(events[..|events| - 1])
  }

  /** Wakeups written since the wakeup channel was last read. */
  function UnreadWakeups(events: seq<Event>): nat {
    if events == [] then 0
    else
      var before := events[..|events| - 1];
      match events[|events| - 1]
      case Wake(t) => UnreadWakeups(before) + if t != LOOP || !ToldToRun(before) then 1 else 0
      case ReadWakeup => 0
      case _ => UnreadWakeups(before)
  }

  /** Over every run the eventfd holds the wakeups written since it was last read, by
      other threads and, while the loop is not to run, by its own. */
  lemma {:induction false} EventfdCounts(trace: seq<State>, events: seq<Event>, i: nat)
    requires Run(trace, events) && i < |trace|
    ensures trace[i].running == ToldToRun(events[..i])
    ensures trace[i].eventfd == UnreadWakeups(events[..i])
    decreases i
  {
    if i == 0 {
      var dummy: Q.Addr :| trace[0] == Init(dummy);
    } else {
      EventfdCounts(trace, events, i - 1);
      RunSteps(trace, events, i - 1);
      hide Run, Enabled, EnqueueStep, Visible;
      assert events[..i][..i - 1] == events[..i - 1] && events[..i][i - 1] == events[i - 1];
    }
  }

  /** The loop goes round again if and only if it has not been told to stop since it was started. */
  lemma LoopEndsIff(trace: seq<State>, events: seq<Event>, i: nat)
    requires Run(trace, events) && i < |events| && events[i] == TestRunning
    ensures trace[i + 1].phase == if ToldToRun(events[..i]) then Timers else Stopped
  {
    EventfdCounts(trace, events, i);
    RunSteps(trace, events, i);
  }

  lemma RunGoesOn(trace: seq<State>, events: seq<Event>, e: Event)
    requires Run(trace, events) && Enabled(trace[|trace| - 1], e)
    ensures Run(trace + [Step(trace[|trace| - 1], e)], events + [e])
  {
    hide Enabled, Step, Init;
  }

  /** A run as far as its last state `s`. */
  ghost predicate RunsTo(trace: seq<State>, events: seq<Event>, s: State) {
    Run(trace, events) && trace[|trace| - 1] == s
  }

  lemma GoOn(trace: seq<State>, events: seq<Event>, s: State, e: Event) returns (trace': seq<State>, events': seq<Event>)
    requires RunsTo(trace, events, s) && Enabled(s, e)
    ensures RunsTo(trace', events', Step(s, e)) && trace <= trace'
  {
    hide Enabled, Step, Init;
    RunGoesOn(trace, events, e);
    trace', events' := trace + [Step(s, e)], events + [e];
  }

  /** Another thread queues a task while the loop polls, and wakes it. */
  lemma Woken(dummy: Q.Addr, addr: Q.Addr, task: Q.Task) returns (trace: seq<State>, events: seq<Event>, s: State)
    requires addr != dummy
    ensures RunsTo(trace, events, s) && s.phase.Polling? && s.running && s.eventfd == 1 && s.linked == {}
    ensures s.queue.producers == map[] && s.queue.consumer.Ready? && s.queue.tail == dummy
    ensures s.queue.nodes == map[dummy := Q.DataNode(Q.NoPayload, Q.To(addr)), addr := Q.DataNode(Q.Owned(task), Q.Null)]
    ensures s.queue.history.pushed == [task] && s.queue.history.popped == []
  {
    var t: ThreadId := 1;
    trace, events := [Init(dummy)], [];
    assert trace[0] == Init(dummy) && RunsTo(trace, events, Init(dummy));
    hide RunsTo;
    trace, events := GoOn(trace, events, Init(dummy), Start);
    var s1 := Step(Init(dummy), Start);
    trace, events := GoOn(trace, events, s1, TimersDone);
    var s2 := Step(s1, TimersDone);
    trace, events := GoOn(trace, events, s2, Enqueue(Q.Alloc(t, addr, task)));
    var s3 := Step(s2, Enqueue(Q.Alloc(t, addr, task)));
    trace, events := GoOn(trace, events, s3, Enqueue(Q.Exchange(t)));
    var s4 := Step(s3, Enqueue(Q.Exchange(t)));
    trace, events := GoOn(trace, events, s4, Enqueue(Q.LinkPrev(t)));
    var s5 := Step(s4, Enqueue(Q.LinkPrev(t)));
    trace, events := GoOn(trace, events, s5, Wake(t));
    s := Step(s5, Wake(t));
  }

  /** The woken loop reads the wakeup and turns to its queue. */
  lemma Awake(trace0: seq<State>, events0: seq<Event>, s: State) returns (trace: seq<State>, events: seq<Event>, s': State)
    requires RunsTo(trace0, events0, s) && s.phase.Polling? && s.running && s.eventfd > 0 && s.linked == {}
    requires s.queue.producers == map[] && Visible(s)
    ensures RunsTo(trace, events, s') && trace0 <= trace
    ensures s'.phase.Draining? && s'.running && s'.eventfd == 0 && s'.linked == {} && s'.queue == s.queue
  {
    hide RunsTo;
    trace, events := GoOn(trace0, events0, s, PollReturns(true));
    var s1 := Step(s, PollReturns(true));
    trace, events := GoOn(trace, events, s1, ReadWakeup);
    var s2 := Step(s1, ReadWakeup);
    trace, events := GoOn(trace, events, s2, HandlersDone);
    var s3 := Step(s2, HandlersDone);
    trace, events := GoOn(trace, events, s3, CheckEmpty);
    s' := Step(s3, CheckEmpty);
  }

  /** It takes one task out. */
  lemma TakesTask(trace0: seq<State>, events0: seq<Event>, s: State) returns (trace: seq<State>, events: seq<Event>, s': State)
    requires RunsTo(trace0, events0, s) && s.phase.Draining? && s.running && s.linked == {}
    requires s.queue.producers == map[] && s.queue.consumer.Ready? && Visible(s)
    requires
      var next := s.queue.nodes[s.queue.tail].next.addr;
      && next in s.queue.nodes && next != s.queue.tail && !s.queue.nodes[s.queue.tail].data.Owned?
      && s.queue.nodes[next].data.Owned? && s.queue.nodes[next].next.Null?
    ensures RunsTo(trace, events, s') && trace0 <= trace
    ensures s'.phase.Draining? && s'.running && s'.eventfd == s.eventfd && s'.linked == {}
    ensures s'.queue.producers == map[] && s'.queue.consumer.Ready?
    ensures s'.queue.tail in s'.queue.nodes && s'.queue.nodes[s'.queue.tail].next.Null?
    ensures s'.queue.history.pushed == s.queue.history.pushed
    ensures s'.queue.history.popped == s.queue.history.popped + [s.queue.nodes[s.queue.nodes[s.queue.tail].next.addr].data.task]
  {
    hide RunsTo;
    trace, events := GoOn(trace0, events0, s, Dequeue(Q.Load));
    var s1 := Step(s, Dequeue(Q.Load));
    trace, events := GoOn(trace, events, s1, Dequeue(Q.Take));
    var s2 := Step(s1, Dequeue(Q.Take));
    trace, events := GoOn(trace, events, s2, Dequeue(Q.Advance));
    var s3 := Step(s2, Dequeue(Q.Advance));
    trace, events := GoOn(trace, events, s3, Dequeue(Q.Free));
    s' := Step(s3, Dequeue(Q.Free));
  }

  /** With nothing left the loop goes back to poll. */
  lemma Back(trace0: seq<State>, events0: seq<Event>, s: State) returns (trace: seq<State>, events: seq<Event>, s': State)
    requires RunsTo(trace0, events0, s) && s.phase.Draining? && s.running && s.linked == {}
    requires s.queue.producers == map[] && s.queue.consumer.Ready?
    requires s.queue.tail in s.queue.nodes && s.queue.nodes[s.queue.tail].next.Null?
    ensures RunsTo(trace, events, s') && trace0 <= trace
    ensures s'.phase.Polling? && s'.running && s'.eventfd == s.eventfd && s'.linked == {} && s'.queue == s.queue
  {
    hide RunsTo;
    trace, events := GoOn(trace0, events0, s, Dequeue(Q.Load));
    var s1 := Step(s, Dequeue(Q.Load));
    trace, events := GoOn(trace, events, s1, CheckEmpty);
    var s2 := Step(s1, CheckEmpty);
    trace, events := GoOn(trace, events, s2, TestRunning);
    var s3 := Step(s2, TestRunning);
    trace, events := GoOn(trace, events, s3, TimersDone);
    s' := Step(s3, TimersDone);
  }

  /** The way round: in this run another thread queues a task and wakes the poll (k), the
      loop reads the wakeup, runs what was queued, and polls again with the eventfd at 0. */
  lemma WokenAndBack(dummy: Q.Addr, addr: Q.Addr, task: Q.Task) returns (trace: seq<State>, events: seq<Event>, k: nat)
    requires addr != dummy
    ensures Run(trace, events) && k < |trace| && trace[k].phase.Polling? && trace[k].eventfd == 1 && Visible(trace[k])
    ensures
      var s := trace[|trace| - 1];
      && s.phase.Polling? && s.running && s.eventfd == 0 && !WakeupToCome(s)
      && s.queue.history.pushed == s.queue.history.popped == [task]
  {
    var woken, awake, drained, last;
    trace, events, woken := Woken(dummy, addr, task);
    k := |trace| - 1;
    trace, events, awake := Awake(trace, events, woken);
    trace, events, drained := TakesTask(trace, events, awake);
    trace, events, last := Back(trace, events, drained);
  }
}
