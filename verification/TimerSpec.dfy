/** Timers as a plain map of live timers: what adding, cancelling and one firing round
    mean, and what every run of them keeps. */
module TimerSpec {
  type TimerId = nat

  /** A timer; times and durations are milliseconds. */
  datatype Timer = Timer(id: TimerId, expiration: int, interval: int) {
    predicate IsRepeat() { interval > 0 }

    function ResetExpiration(now: int): Timer { this.(expiration := now + interval) }
  }

  /** operator> on timers, read from the other side: a leaves the heap before b. */
  predicate Before(a: Timer, b: Timer) {
    if a.expiration != b.expiration then a.expiration < b.expiration else a.id < b.id
  }

  predicate Sorted(s: seq<Timer>) {
    forall i, j | 0 <= i < j < |s| :: Before(s[i], s[j])
  }

  /** What user code can do: on the loop thread at once, on another thread by queueing
      a task (the id is drawn at the call either way). */
  datatype Command =
    | Add(expiration: int, interval: int)
    | Cancel(id: TimerId)
    | PostAdd(expiration: int, interval: int)
    | PostCancel(id: TimerId)

  datatype Task = AddTask(timer: Timer) | CancelTask(id: TimerId)

  /** History: `Fired` records the expiration and interval the timer had and the round's now. */
  datatype Event = Fired(id: TimerId, expiration: int, interval: int, at: int) | Cancelled(id: TimerId)

  datatype Spec = Spec(live: map<TimerId, Timer>, lastId: TimerId, tasks: seq<Task>, log: seq<Event>)

  /** What each timer's callback does when it runs in a round. */
  type Script = map<TimerId, seq<Command>>

  function Calls(script: Script, id: TimerId): (calls: seq<Command>)
    ensures id in script ==> calls == script[id]
    ensures id !in script ==> calls == []
  {
    if id in script then script[id] else []
  }

  function CancelLive(s: Spec, id: TimerId): Spec {
    if id in s.live then s.(live := s.live - {id}, log := s.log + [Cancelled(id)]) else s
  }

  function Exec(s: Spec, c: Command): Spec {
    match c
    case Add(expiration, interval) =>
      var id := s.lastId + 1;
      s.(live := s.live[id := Timer(id, expiration, interval)], lastId := id)
    case Cancel(id) => CancelLive(s, id)
    case PostAdd(expiration, interval) =>
      var id := s.lastId + 1;
      s.(tasks := s.tasks + [AddTask(Timer(id, expiration, interval))], lastId := id)
    case PostCancel(id) => s.(tasks := s.tasks + [CancelTask(id)])
  }

  function ExecAll(s: Spec, commands: seq<Command>): Spec {
    if commands == [] then s else Exec(ExecAll(s, commands[..|commands| - 1]), commands[|commands| - 1])
  }

  /** The loop runs the oldest queued task. */
  function Deliver(s: Spec): Spec
    requires s.tasks != []
  {
    var rest := s.(tasks := s.tasks[1..]);
    match s.tasks[0]
    case AddTask(t) => rest.(live := s.live[t.id := t])
    case CancelTask(id) => CancelLive(rest, id)
  }

  /** The due live timers, earliest expiration first, ties by id. */
  ghost predicate IsDueOrder(live: map<TimerId, Timer>, now: int, due: seq<Timer>) {
    && Sorted(due)
    && (forall t :: t in due <==> t.id in live && live[t.id] == t && t.expiration <= now)
  }

  function FireOne(s: Spec, t: Timer, now: int, script: Script): Spec {
    if t.id in s.live
    then ExecAll(s.(log := s.log + [Fired(t.id, t.expiration, t.interval, now)]), Calls(script, t.id))
    else s
  }

  /** After the first k due timers had their turn: each runs its callback if still live. */
  function FireFirst(s: Spec, due: seq<Timer>, k: nat, now: int, script: Script): Spec
    requires k <= |due|
  {
    if k == 0 then s else FireOne(FireFirst(s, due, k - 1, now, script), due[k - 1], now, script)
  }

  function ResetOne(s: Spec, t: Timer, now: int): Spec {
    if t.id !in s.live then s
    else if t.IsRepeat() then s.(live := s.live[t.id := t.ResetExpiration(now)])
    else s.(live := s.live - {t.id})
  }

  function ResetFirst(s: Spec, due: seq<Timer>, k: nat, now: int): Spec
    requires k <= |due|
  {
    if k == 0 then s else ResetOne(ResetFirst(s, due, k - 1, now), due[k - 1], now)
  }

  function Round(s: Spec, due: seq<Timer>, now: int, script: Script): Spec {
    ResetFirst(FireFirst(s, due, |due|, now, script), due, |due|, now)
  }

  // ---------------------------------------------------------------- one round

  /** The k-th due timer runs its callback in the round. */
  predicate Fires(s: Spec, due: seq<Timer>, k: nat, now: int, script: Script)
    requires k < |due|
  {
    due[k].id in FireFirst(s, due, k, now, script).live
  }

  lemma {:induction false} ExecAllLive(s: Spec, commands: seq<Command>, id: TimerId)
    requires id <= s.lastId
    ensures id in ExecAll(s, commands).live <==> id in s.live && Cancel(id) !in commands
    ensures id in ExecAll(s, commands).live ==> ExecAll(s, commands).live[id] == s.live[id]
    ensures ExecAll(s, commands).lastId >= s.lastId
    decreases |commands|
  {
    if commands != [] {
      var front := commands[..|commands| - 1];
      ExecAllLive(s, front, id);
      assert commands == front + [commands[|commands| - 1]];
    }
  }

  lemma {:induction false} FireFirstLive(s: Spec, due: seq<Timer>, k: nat, now: int, script: Script, id: TimerId)
    requires k <= |due| && id <= s.lastId
    ensures id in FireFirst(s, due, k, now, script).live <==>
      id in s.live && forall j | 0 <= j < k :: !(Fires(s, due, j, now, script) && Cancel(id) in Calls(script, due[j].id))
    ensures id in FireFirst(s, due, k, now, script).live ==> FireFirst(s, due, k, now, script).live[id] == s.live[id]
    ensures FireFirst(s, due, k, now, script).lastId >= s.lastId
    decreases k
  {
    if k > 0 {
      FireFirstLive(s, due, k - 1, now, script, id);
      var before := FireFirst(s, due, k - 1, now, script);
      var t := due[k - 1];
      if t.id in before.live {
        ExecAllLive(before.(log := before.log + [Fired(t.id, t.expiration, t.interval, now)]), Calls(script, t.id), id);
      }
      assert Fires(s, due, k - 1, now, script) <==> t.id in before.live;
    }
  }

  /** A due live timer fires unless the callback of a timer fired before it in the same
      round cancels it, and it fires with the expiration it was due by. */
  lemma FiresIff(s: Spec, due: seq<Timer>, k: nat, now: int, script: Script)
    requires IsDueOrder(s.live, now, due) && k < |due| && due[k].id <= s.lastId
    ensures Fires(s, due, k, now, script) <==>
      !exists j :: 0 <= j < k && Fires(s, due, j, now, script) && Cancel(due[k].id) in Calls(script, due[j].id)
    ensures due[k].expiration <= now
  {
    assert due[k] in due;
    FireFirstLive(s, due, k, now, script, due[k].id);
  }

  function FiredIds(log: seq<Event>): seq<TimerId> {
    if log == [] then []
    else FiredIds(log[..|log| - 1]) + (if log[|log| - 1].Fired? then [log[|log| - 1].id] else [])
  }

  /** The due timers that fire, in due order. */
  function FiringOrder(s: Spec, due: seq<Timer>, k: nat, now: int, script: Script): seq<TimerId>
    requires k <= |due|
  {
    if k == 0 then []
    else FiringOrder(s, due, k - 1, now, script) + (if Fires(s, due, k - 1, now, script) then [due[k - 1].id] else [])
  }

  lemma {:induction false} ExecAllFiresNothing(s: Spec, commands: seq<Command>)
    ensures FiredIds(ExecAll(s, commands).log) == FiredIds(s.log)
    decreases |commands|
  {
    if commands != [] {
      var before := ExecAll(s, commands[..|commands| - 1]);
      ExecAllFiresNothing(s, commands[..|commands| - 1]);
      var after := ExecAll(s, commands);
      assert after.log != before.log ==> after.log[..|after.log| - 1] == before.log;
    }
  }

  lemma FireOneLogs(s: Spec, t: Timer, now: int, script: Script)
    ensures FiredIds(FireOne(s, t, now, script).log) == FiredIds(s.log) + (if t.id in s.live then [t.id] else [])
  {
    if t.id in s.live {
      var logged := s.(log := s.log + [Fired(t.id, t.expiration, t.interval, now)]);
      assert logged.log[..|logged.log| - 1] == s.log;
      ExecAllFiresNothing(logged, Calls(script, t.id));
    }
  }

  lemma {:induction false} FireFirstLogs(s: Spec, due: seq<Timer>, k: nat, now: int, script: Script)
    requires k <= |due|
    ensures FiredIds(FireFirst(s, due, k, now, script).log) == FiredIds(s.log) + FiringOrder(s, due, k, now, script)
    decreases k
  {
    hide FireOne, FiredIds;
    if k > 0 {
      FireFirstLogs(s, due, k - 1, now, script);
      FireOneLogs(FireFirst(s, due, k - 1, now, script), due[k - 1], now, script);
    }
  }

  /** What a round logs as fired is the firing due timers in (expiration, id) order, each once. */
  lemma RoundFiresInOrder(s: Spec, due: seq<Timer>, now: int, script: Script)
    ensures FiredIds(Round(s, due, now, script).log) == FiredIds(s.log) + FiringOrder(s, due, |due|, now, script)
  {
    FireFirstLogs(s, due, |due|, now, script);
    ResetLogsNothing(FireFirst(s, due, |due|, now, script), due, |due|, now);
  }

  lemma {:induction false} ResetLogsNothing(s: Spec, due: seq<Timer>, k: nat, now: int)
    requires k <= |due|
    ensures ResetFirst(s, due, k, now).log == s.log
    decreases k
  {
    if k > 0 {
      ResetLogsNothing(s, due, k - 1, now);
    }
  }

  /** Two due orders that agree up to k: the next of one is not before the next of the other. */
  lemma NextIsLeast(live: map<TimerId, Timer>, now: int, a: seq<Timer>, b: seq<Timer>, k: nat)
    requires IsDueOrder(live, now, a) && IsDueOrder(live, now, b)
    requires k < |a| && k < |b| && a[..k] == b[..k]
    ensures a[k] == b[k] || Before(a[k], b[k])
  {
    forall i | 0 <= i < k ensures a[i] != b[k] {
      assert a[..k][i] == b[..k][i];
      assert Before(b[i], b[k]);
    }
    assert b[k] in b && b[k] in a;
    var j :| 0 <= j < |a| && a[j] == b[k];
    assert j > k ==> Before(a[k], a[j]);
  }

  lemma {:induction false} DueOrdersAgree(live: map<TimerId, Timer>, now: int, a: seq<Timer>, b: seq<Timer>, k: nat)
    requires IsDueOrder(live, now, a) && IsDueOrder(live, now, b) && k <= |a| && k <= |b|
    ensures a[..k] == b[..k]
    decreases k
  {
    if k > 0 {
      hide IsDueOrder;
      DueOrdersAgree(live, now, a, b, k - 1);
      NextIsLeast(live, now, a, b, k - 1);
      NextIsLeast(live, now, b, a, k - 1);
      assert a[..k] == a[..k - 1] + [a[k - 1]] && b[..k] == b[..k - 1] + [b[k - 1]];
    }
  }

  lemma SortedIsDistinct(s: seq<Timer>, k: nat)
    requires Sorted(s) && k < |s|
    ensures s[k] !in s[..k]
  {
    forall i | 0 <= i < k ensures s[i] != s[k] {
      assert Before(s[i], s[k]);
    }
  }

  lemma NoLonger(live: map<TimerId, Timer>, now: int, a: seq<Timer>, b: seq<Timer>)
    requires IsDueOrder(live, now, a) && IsDueOrder(live, now, b) && |b| <= |a| && a[..|b|] == b
    ensures a == b
  {
    if |b| < |a| {
      SortedIsDistinct(a, |b|);
      assert false;
    }
  }

  /** The firing order is determined: it is the only sorted list of the due timers. */
  lemma DueOrderUnique(live: map<TimerId, Timer>, now: int, a: seq<Timer>, b: seq<Timer>)
    requires IsDueOrder(live, now, a) && IsDueOrder(live, now, b)
    ensures a == b
  {
    hide IsDueOrder;
    if |b| <= |a| {
      DueOrdersAgree(live, now, a, b, |b|);
      assert b[..|b|] == b;
      NoLonger(live, now, a, b);
    } else {
      DueOrdersAgree(live, now, b, a, |a|);
      assert a[..|a|] == a;
      NoLonger(live, now, b, a);
    }
  }

  // ---------------------------------------------------------------- whole runs

  datatype Op =
    | Do(command: Command)
    | DeliverTask
    | FireRound(due: seq<Timer>, now: int, script: Script)

  ghost predicate Possible(s: Spec, op: Op) {
    match op
    case Do(_) => true
    case DeliverTask => true
    case FireRound(due, now, _) => IsDueOrder(s.live, now, due)
  }

  function Apply(s: Spec, op: Op): Spec {
    match op
    case Do(c) => Exec(s, c)
    case DeliverTask => if s.tasks == [] then s else Deliver(s)
    case FireRound(due, now, script) => Round(s, due, now, script)
  }

  const Empty := Spec(map[], 0, [], [])

  function After(ops: seq<Op>): Spec {
    if ops == [] then Empty else Apply(After(ops[..|ops| - 1]), ops[|ops| - 1])
  }

  ghost predicate LegalRun(ops: seq<Op>) {
    forall k | 0 <= k < |ops| :: Possible(After(ops[..k]), ops[k])
  }

  /** Ids are drawn once: live, queued and logged ids are all distinct uses of 1..lastId. */
  ghost predicate IdsOk(s: Spec) {
    && (forall id | id in s.live :: 1 <= id <= s.lastId && s.live[id].id == id)
    && (forall i | 0 <= i < |s.tasks| && s.tasks[i].AddTask? :: QueuedOk(s, i))
    && (forall i, j | 0 <= i < j < |s.tasks| && s.tasks[i].AddTask? && s.tasks[j].AddTask? ::
          s.tasks[i].timer.id != s.tasks[j].timer.id)
    && (forall i | 0 <= i < |s.log| :: s.log[i].id <= s.lastId)
  }

  /** A timer queued by another thread is not live yet and has no past. */
  ghost predicate QueuedOk(s: Spec, i: nat)
    requires i < |s.tasks| && s.tasks[i].AddTask?
  {
    var id := s.tasks[i].timer.id;
    1 <= id <= s.lastId && id !in s.live && forall j | 0 <= j < |s.log| :: s.log[j].id != id
  }

  /** What the log says about timers still live; `done` are the ids that already had
      their turn in the round at `now`. */
  ghost predicate LiveOk(s: Spec, done: set<TimerId>, now: int) {
    forall i | 0 <= i < |s.log| && s.log[i].id in s.live :: EventLiveOk(s.log[i], s.live[s.log[i].id], done, now)
  }

  ghost predicate EventLiveOk(e: Event, t: Timer, done: set<TimerId>, now: int) {
    && e.Fired? && e.interval == t.interval
    && (if t.id in done then e.at <= now else t.IsRepeat() && t.expiration >= e.at + t.interval)
  }

  /** What the log says by itself. */
  ghost predicate LogOk(log: seq<Event>) {
    && (forall i | 0 <= i < |log| && log[i].Fired? :: log[i].at >= log[i].expiration)
    && (forall i, j | 0 <= i < j < |log| && log[i].id == log[j].id && log[j].Fired? :: SpacedOk(log[i], log[j]))
  }

  ghost predicate SpacedOk(a: Event, b: Event)
    requires b.Fired?
  {
    a.Fired? && a.interval == b.interval && b.interval > 0 && b.at >= a.at + b.interval
  }

  ghost predicate HistoryOk(s: Spec, done: set<TimerId>, now: int) {
    IdsOk(s) && LiveOk(s, done, now) && LogOk(s.log)
  }

  lemma ExecKeepsHistory(s: Spec, c: Command, done: set<TimerId>, now: int)
    requires HistoryOk(s, done, now)
    ensures HistoryOk(Exec(s, c), done, now)
  {
    var s' := Exec(s, c);
    forall i | 0 <= i < |s'.tasks| && s'.tasks[i].AddTask? ensures QueuedOk(s', i) {
      assert i < |s.tasks| ==> QueuedOk(s, i);
    }
  }

  lemma {:induction false} ExecAllKeepsHistory(s: Spec, commands: seq<Command>, done: set<TimerId>, now: int)
    requires HistoryOk(s, done, now)
    ensures HistoryOk(ExecAll(s, commands), done, now)
    decreases |commands|
  {
    if commands != [] {
      ExecAllKeepsHistory(s, commands[..|commands| - 1], done, now);
      ExecKeepsHistory(ExecAll(s, commands[..|commands| - 1]), commands[|commands| - 1], done, now);
    }
  }

  lemma DeliverKeepsHistory(s: Spec, now: int)
    requires HistoryOk(s, {}, now) && s.tasks != []
    ensures HistoryOk(Deliver(s), {}, now)
  {
    var s' := Deliver(s);
    forall i | 0 <= i < |s'.tasks| && s'.tasks[i].AddTask? ensures QueuedOk(s', i) {
      assert s'.tasks[i] == s.tasks[i + 1] && QueuedOk(s, i + 1);
    }
    if s.tasks[0].AddTask? {
      assert QueuedOk(s, 0);
    }
    assert forall i, j | 0 <= i < j < |s'.tasks| :: s'.tasks[i] == s.tasks[i + 1] && s'.tasks[j] == s.tasks[j + 1];
  }

  /** One turn: the timer is due, so all its earlier firings lie an interval back. */
  lemma FireOneKeepsHistory(s: Spec, t: Timer, done: set<TimerId>, now: int, script: Script)
    requires HistoryOk(s, done, now) && t.id !in done && t.expiration <= now
    requires t.id in s.live ==> s.live[t.id] == t
    ensures HistoryOk(FireOne(s, t, now, script), done + {t.id}, now)
  {
    if t.id in s.live {
      var logged := s.(log := s.log + [Fired(t.id, t.expiration, t.interval, now)]);
      forall i | 0 <= i < |s.tasks| && s.tasks[i].AddTask? ensures QueuedOk(logged, i) {
        assert QueuedOk(s, i);
      }
      forall i | 0 <= i < |s.log| && s.log[i].id in s.live
        ensures EventLiveOk(s.log[i], s.live[s.log[i].id], done + {t.id}, now)
      {
        assert EventLiveOk(s.log[i], s.live[s.log[i].id], done, now);
      }
      assert HistoryOk(logged, done + {t.id}, now);
      ExecAllKeepsHistory(logged, Calls(script, t.id), done + {t.id}, now);
    }
  }

  lemma ResetOneKeepsHistory(s: Spec, t: Timer, done: set<TimerId>, now: int)
    requires HistoryOk(s, done, now) && t.id in done && (t.id in s.live ==> s.live[t.id] == t)
    ensures HistoryOk(ResetOne(s, t, now), done - {t.id}, now)
  {
    var s' := ResetOne(s, t, now);
    forall i | 0 <= i < |s'.tasks| && s'.tasks[i].AddTask? ensures QueuedOk(s', i) {
      assert QueuedOk(s, i);
    }
    forall i | 0 <= i < |s'.log| && s'.log[i].id in s'.live
      ensures EventLiveOk(s'.log[i], s'.live[s'.log[i].id], done - {t.id}, now)
    {
      assert EventLiveOk(s.log[i], s.live[s.log[i].id], done, now);
    }
  }

  ghost function IdsOf(due: seq<Timer>): set<TimerId> {
    set t | t in due :: t.id
  }

  lemma DueIdsDistinct(s: Spec, due: seq<Timer>, now: int, i: nat, j: nat)
    requires IsDueOrder(s.live, now, due) && i < j < |due|
    ensures due[i].id != due[j].id
  {
    assert due[i] in due && due[j] in due && Before(due[i], due[j]);
  }

  lemma DueMember(s: Spec, due: seq<Timer>, now: int, k: nat)
    requires HistoryOk(s, {}, now) && IsDueOrder(s.live, now, due) && k < |due|
    ensures due[k].expiration <= now && due[k].id in s.live && s.live[due[k].id] == due[k] && due[k].id <= s.lastId
  {
    assert due[k] in due;
  }

  /** The k-th due id joins those that had their turn and leaves those still to have it. */
  lemma NextDueId(s: Spec, due: seq<Timer>, now: int, k: nat)
    requires IsDueOrder(s.live, now, due) && k < |due|
    ensures due[k].id !in IdsOf(due[..k]) && IdsOf(due[..k + 1]) == IdsOf(due[..k]) + {due[k].id}
    ensures due[k].id in IdsOf(due[k..]) && IdsOf(due[k + 1..]) == IdsOf(due[k..]) - {due[k].id}
  {
    forall i | 0 <= i < |due| && i != k ensures due[i].id != due[k].id {
      if i < k { DueIdsDistinct(s, due, now, i, k); } else { DueIdsDistinct(s, due, now, k, i); }
    }
    hide IsDueOrder;
    assert due[..k + 1] == due[..k] + [due[k]];
    assert due[k..] == [due[k]] + due[k + 1..];
  }

  lemma FiringKeepsTimer(s: Spec, due: seq<Timer>, k: nat, now: int, script: Script)
    requires HistoryOk(s, {}, now) && IsDueOrder(s.live, now, due) && k < |due|
    ensures
      var live := FireFirst(s, due, k, now, script).live;
      due[k].id in live ==> live[due[k].id] == due[k]
  {
    DueMember(s, due, now, k);
    FireFirstLive(s, due, k, now, script, due[k].id);
  }

  lemma FireNextKeepsHistory(s: Spec, due: seq<Timer>, k: nat, now: int, script: Script)
    requires HistoryOk(s, {}, now) && IsDueOrder(s.live, now, due) && k < |due|
    requires HistoryOk(FireFirst(s, due, k, now, script), IdsOf(due[..k]), now)
    ensures HistoryOk(FireFirst(s, due, k + 1, now, script), IdsOf(due[..k + 1]), now)
  {
    var before := FireFirst(s, due, k, now, script);
    assert FireFirst(s, due, k + 1, now, script) == FireOne(before, due[k], now, script);
    hide *;
    DueMember(s, due, now, k);
    NextDueId(s, due, now, k);
    FiringKeepsTimer(s, due, k, now, script);
    FireOneKeepsHistory(before, due[k], IdsOf(due[..k]), now, script);
  }

  lemma {:induction false} FireFirstKeepsHistory(s: Spec, due: seq<Timer>, k: nat, now: int, script: Script)
    requires HistoryOk(s, {}, now) && IsDueOrder(s.live, now, due) && k <= |due|
    ensures HistoryOk(FireFirst(s, due, k, now, script), IdsOf(due[..k]), now)
    decreases k
  {
    if k == 0 {
      assert due[..0] == [];
    } else {
      hide *;
      FireFirstKeepsHistory(s, due, k - 1, now, script);
      FireNextKeepsHistory(s, due, k - 1, now, script);
    }
  }

  lemma {:induction false} ResetFirstKeepsHistory(s: Spec, s0: Spec, due: seq<Timer>, k: nat, now: int)
    requires IsDueOrder(s0.live, now, due) && k <= |due|
    requires HistoryOk(s, IdsOf(due), now)
    requires forall t | t in due && t.id in s.live :: s.live[t.id] == t
    ensures HistoryOk(ResetFirst(s, due, k, now), IdsOf(due[k..]), now)
    ensures forall t | t in due[k..] && t.id in ResetFirst(s, due, k, now).live :: ResetFirst(s, due, k, now).live[t.id] == t
    decreases k
  {
    if k == 0 {
      assert due[0..] == due;
    } else {
      var t := due[k - 1];
      assert due[k - 1..] == [t] + due[k..];
      hide HistoryOk, IdsOf, IsDueOrder;
      ResetFirstKeepsHistory(s, s0, due, k - 1, now);
      NextDueId(s0, due, now, k - 1);
      assert forall u | u in due[k..] :: u in due[k - 1..];
      LaterIdsDiffer(s0, due, now, k - 1);
      ResetOneKeepsHistory(ResetFirst(s, due, k - 1, now), t, IdsOf(due[k - 1..]), now);
    }
  }

  lemma LaterIdsDiffer(s: Spec, due: seq<Timer>, now: int, k: nat)
    requires IsDueOrder(s.live, now, due) && k < |due|
    ensures forall u | u in due[k + 1..] :: u.id != due[k].id
  {
    forall i | k < i < |due| ensures due[i].id != due[k].id { DueIdsDistinct(s, due, now, k, i); }
  }

  lemma RoundKeepsHistory(s: Spec, due: seq<Timer>, now: int, script: Script)
    requires HistoryOk(s, {}, now) && IsDueOrder(s.live, now, due)
    ensures HistoryOk(Round(s, due, now, script), {}, now)
  {
    FireFirstKeepsHistory(s, due, |due|, now, script);
    var fired := FireFirst(s, due, |due|, now, script);
    assert due[..|due|] == due && due[|due|..] == [];
    forall t | t in due && t.id in fired.live ensures fired.live[t.id] == t {
      FireFirstLive(s, due, |due|, now, script, t.id);
    }
    ResetFirstKeepsHistory(fired, s, due, |due|, now);
  }

  /** Between rounds the history facts do not depend on a time. */
  lemma AnyTime(s: Spec, a: int, b: int)
    requires HistoryOk(s, {}, a)
    ensures HistoryOk(s, {}, b)
  {
    forall i | 0 <= i < |s.log| && s.log[i].id in s.live ensures EventLiveOk(s.log[i], s.live[s.log[i].id], {}, b) {
      assert EventLiveOk(s.log[i], s.live[s.log[i].id], {}, a);
    }
  }

  lemma ApplyKeepsHistory(s: Spec, op: Op, now: int)
    requires HistoryOk(s, {}, now) && Possible(s, op)
    ensures HistoryOk(Apply(s, op), {}, now)
  {
    hide HistoryOk, Exec, Deliver, Round, IsDueOrder;
    match op
    case Do(c) =>
      ExecKeepsHistory(s, c, {}, now);
    case DeliverTask =>
      if s.tasks != [] {
        DeliverKeepsHistory(s, now);
      }
    case FireRound(due, at, script) =>
      AnyTime(s, now, at);
      RoundKeepsHistory(s, due, at, script);
      AnyTime(Round(s, due, at, script), at, now);
  }

  lemma LegalPrefix(ops: seq<Op>)
    requires LegalRun(ops) && ops != []
    ensures LegalRun(ops[..|ops| - 1]) && Possible(After(ops[..|ops| - 1]), ops[|ops| - 1])
  {
    hide Possible, After;
    var pre := ops[..|ops| - 1];
    forall i | 0 <= i < |pre| ensures Possible(After(pre[..i]), pre[i]) {
      assert pre[..i] == ops[..i] && Possible(After(ops[..i]), ops[i]);
    }
  }

  /** Every run keeps the history facts. */
  lemma {:induction false} RunKeepsHistory(ops: seq<Op>, now: int)
    requires LegalRun(ops)
    ensures HistoryOk(After(ops), {}, now)
    decreases |ops|
  {
    if ops != [] {
      hide HistoryOk, Apply, Possible, LegalRun;
      LegalPrefix(ops);
      RunKeepsHistory(ops[..|ops| - 1], now);
      ApplyKeepsHistory(After(ops[..|ops| - 1]), ops[|ops| - 1], now);
    }
  }
}
