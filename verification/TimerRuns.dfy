/** Timers in terms of what was asked for: what commands and rounds do to each timer, and
    what every run keeps of the expiration and interval a timer was requested with. */
module TimerRuns {
  import opened TimerSpec

  // ---------------------------------------------------------------- commands

  predicate IsRequest(c: Command) { c.Add? || c.PostAdd? }

  /** The commands that ask for a new timer. */
  function Adds(commands: seq<Command>): seq<Command> {
    if commands == [] then []
    else
      var last := commands[|commands| - 1];
      Adds(commands[..|commands| - 1]) + if IsRequest(last) then [last] else []
  }

  lemma {:induction false} ExecAllDrawsIds(s: Spec, commands: seq<Command>)
    ensures ExecAll(s, commands).lastId == s.lastId + |Adds(commands)|
    ensures s.tasks <= ExecAll(s, commands).tasks
    decreases |commands|
  {
    if commands != [] {
      ExecAllDrawsIds(s, commands[..|commands| - 1]);
    }
  }

  lemma {:induction false} ExecAllSplits(s: Spec, a: seq<Command>, b: seq<Command>)
    ensures ExecAll(s, a + b) == ExecAll(ExecAll(s, a), b)
    decreases |b|
  {
    if b == [] {
      assert a + b == a;
    } else {
      assert (a + b)[..|a + b| - 1] == a + b[..|b| - 1];
      ExecAllSplits(s, a, b[..|b| - 1]);
    }
  }

  lemma CommandSplits(s: Spec, commands: seq<Command>, i: nat)
    requires i < |commands|
    ensures ExecAll(s, commands) == ExecAll(Exec(ExecAll(s, commands[..i]), commands[i]), commands[i + 1..])
  {
    var front := commands[..i + 1];
    assert front[..i] == commands[..i] && front + commands[i + 1..] == commands;
    ExecAllSplits(s, front, commands[i + 1..]);
  }

  /** What one command among others leaves behind: an added timer is live as asked for
      unless a later command cancels it; what another thread does lies in the queue. */
  lemma CommandOutcome(s: Spec, commands: seq<Command>, i: nat)
    requires i < |commands|
    ensures
      var id, after := s.lastId + |Adds(commands[..i])| + 1, ExecAll(s, commands);
      match commands[i]
      case Add(expiration, interval) =>
        && (id in after.live <==> Cancel(id) !in commands[i + 1..])
        && (id in after.live ==> after.live[id] == Timer(id, expiration, interval))
      case PostAdd(expiration, interval) => AddTask(Timer(id, expiration, interval)) in after.tasks
      case PostCancel(id) => CancelTask(id) in after.tasks
      case Cancel(id) => id <= s.lastId ==> id !in after.live
  {
    var later := commands[i + 1..];
    var s1 := ExecAll(s, commands[..i]);
    var s2 := Exec(s1, commands[i]);
    CommandSplits(s, commands, i);
    ExecAllDrawsIds(s, commands[..i]);
    ExecAllDrawsIds(s2, later);
    hide ExecAll, Adds;
    match commands[i]
    case Add(_, _) => ExecAllLive(s2, later, s2.lastId);
    case PostAdd(_, _) => assert s2.tasks[|s1.tasks|] in s2.tasks;
    case PostCancel(_) => assert s2.tasks[|s1.tasks|] in s2.tasks;
    case Cancel(id) => if id <= s.lastId { ExecAllLive(s2, later, id); }
  }

  // ---------------------------------------------------------------- one round

  ghost predicate DistinctIds(due: seq<Timer>) {
    forall i, j | 0 <= i < j < |due| :: due[i].id != due[j].id
  }

  lemma {:induction false} ResetOutcome(s: Spec, due: seq<Timer>, k: nat, now: int, id: TimerId)
    requires k <= |due| && DistinctIds(due)
    ensures
      var after := ResetFirst(s, due, k, now).live;
      && ((forall m | 0 <= m < k :: due[m].id != id) ==>
            (id in after <==> id in s.live) && (id in after ==> after[id] == s.live[id]))
      && (forall m | 0 <= m < k && due[m].id == id ::
            (id in after <==> id in s.live && due[m].interval > 0)
            && (id in after ==> after[id] == Timer(id, now + due[m].interval, due[m].interval)))
    decreases k
  {
    if k > 0 {
      ResetOutcome(s, due, k - 1, now, id);
    }
  }

  /** Some callback that runs in the round cancels the timer. */
  ghost predicate CancelledIn(s: Spec, due: seq<Timer>, now: int, script: Script, id: TimerId) {
    exists j :: 0 <= j < |due| && Fires(s, due, j, now, script) && Cancel(id) in Calls(script, due[j].id)
  }

  /** What a round leaves of a timer: one that is not due stays as it is; one that was due
      is live again if and only if it repeats, an interval after the round's time; either
      is gone if and only if a callback of the round cancelled it or it was a due one-shot. */
  lemma RoundOutcome(s: Spec, due: seq<Timer>, now: int, script: Script, id: TimerId)
    requires IdsOk(s) && IsDueOrder(s.live, now, due) && id in s.live
    ensures
      var t, after := s.live[id], Round(s, due, now, script).live;
      && (id in after <==> !CancelledIn(s, due, now, script, id) && (t.expiration > now || t.interval > 0))
      && (id in after ==> after[id] == if t.expiration > now then t else Timer(id, now + t.interval, t.interval))
  {
    var t := s.live[id];
    FireFirstLive(s, due, |due|, now, script, id);
    forall i, j | 0 <= i < j < |due| ensures due[i].id != due[j].id { DueIdsDistinct(s, due, now, i, j); }
    var fired := FireFirst(s, due, |due|, now, script);
    ResetOutcome(fired, due, |due|, now, id);
    hide FireFirst, ResetFirst, Sorted;
    assert id in fired.live <==> !CancelledIn(s, due, now, script, id);
    if t.expiration <= now {
      assert t in due;
      var m :| 0 <= m < |due| && due[m] == t;
    } else {
      forall m | 0 <= m < |due| ensures due[m].id != id { assert due[m] in due; }
    }
  }

  /** A timer that was not live, and is not new, is not made live by a round. */
  lemma RoundRevivesNothing(s: Spec, due: seq<Timer>, now: int, script: Script, id: TimerId)
    requires IdsOk(s) && IsDueOrder(s.live, now, due) && id !in s.live && id <= s.lastId
    ensures id !in Round(s, due, now, script).live
  {
    FireFirstLive(s, due, |due|, now, script, id);
    forall i, j | 0 <= i < j < |due| ensures due[i].id != due[j].id { DueIdsDistinct(s, due, now, i, j); }
    ResetOutcome(FireFirst(s, due, |due|, now, script), due, |due|, now, id);
  }

  // ---------------------------------------------------------------- requests over a run

  /** The requests made by the callbacks that run in a round, in order. */
  function RoundRequests(s: Spec, due: seq<Timer>, k: nat, now: int, script: Script): seq<Command>
    requires k <= |due|
  {
    if k == 0 then []
    else
      var turn := if Fires(s, due, k - 1, now, script) then Adds(Calls(script, due[k - 1].id)) else [];
      RoundRequests(s, due, k - 1, now, script) + turn
  }

  /** All requests of a run; the n-th draws id n. */
  function Requests(ops: seq<Op>): seq<Command> {
    if ops == [] then []
    else
      var before := ops[..|ops| - 1];
      Requests(before) + match ops[|ops| - 1]
        case Do(c) => Adds([c])
        case DeliverTask => []
        case FireRound(due, now, script) => RoundRequests(After(before), due, |due|, now, script)
  }

  ghost predicate HasFired(log: seq<Event>, id: TimerId, n: nat)
    requires n <= |log|
  {
    exists i :: 0 <= i < n && log[i].Fired? && log[i].id == id
  }

  /** A timer as requested, but for the times it was re-armed. */
  ghost predicate Fits(id: TimerId, expiration: int, interval: int, fired: bool, requests: seq<Command>) {
    && 1 <= id <= |requests| && IsRequest(requests[id - 1]) && interval == requests[id - 1].interval
    && expiration >= requests[id - 1].expiration
    && (!fired ==> expiration == requests[id - 1].expiration)
  }

  ghost predicate LogFits(log: seq<Event>, requests: seq<Command>) {
    forall i | 0 <= i < |log| && log[i].Fired? ::
      Fits(log[i].id, log[i].expiration, log[i].interval, HasFired(log, log[i].id, i), requests)
  }

  ghost predicate LiveFits(s: Spec, requests: seq<Command>) {
    forall id | id in s.live ::
      s.live[id].id == id && Fits(id, s.live[id].expiration, s.live[id].interval, HasFired(s.log, id, |s.log|), requests)
  }

  ghost predicate TasksFit(s: Spec, requests: seq<Command>) {
    forall i | 0 <= i < |s.tasks| && s.tasks[i].AddTask? ::
      var t := s.tasks[i].timer;
      Fits(t.id, t.expiration, t.interval, false, requests)
  }

  ghost predicate AsRequested(s: Spec, requests: seq<Command>) {
    s.lastId == |requests| && LogFits(s.log, requests) && LiveFits(s, requests) && TasksFit(s, requests)
  }

  lemma ExecFits(s: Spec, c: Command, requests: seq<Command>)
    requires AsRequested(s, requests)
    ensures AsRequested(Exec(s, c), requests + Adds([c]))
  {
    var s' := Exec(s, c);
    assert Adds([c]) == if IsRequest(c) then [c] else [];
    assert !HasFired(s.log, s.lastId + 1, |s.log|);
    forall id ensures HasFired(s'.log, id, |s'.log|) == HasFired(s.log, id, |s.log|) {
      SameFirings(s.log, s'.log, id);
    }
    forall i | 0 <= i < |s.log| ensures HasFired(s'.log, s.log[i].id, i) == HasFired(s.log, s.log[i].id, i) {
      EarlierFirings(s.log, s'.log, s.log[i].id, i);
    }
  }

  lemma EarlierFirings(log: seq<Event>, log': seq<Event>, id: TimerId, n: nat)
    requires log <= log' && n <= |log|
    ensures HasFired(log', id, n) == HasFired(log, id, n)
  {
    if HasFired(log, id, n) {
      var i :| 0 <= i < n && log[i].Fired? && log[i].id == id;
      assert log'[i] == log[i];
    }
    if HasFired(log', id, n) {
      var i :| 0 <= i < n && log'[i].Fired? && log'[i].id == id;
      assert log[i] == log'[i];
    }
  }

  lemma SameFirings(log: seq<Event>, log': seq<Event>, id: TimerId)
    requires log <= log' && forall i | |log| <= i < |log'| :: !(log'[i].Fired? && log'[i].id == id)
    ensures HasFired(log', id, |log'|) == HasFired(log, id, |log|)
  {
    EarlierFirings(log, log', id, |log|);
  }

  lemma {:induction false} ExecAllFits(s: Spec, commands: seq<Command>, requests: seq<Command>)
    requires AsRequested(s, requests)
    ensures AsRequested(ExecAll(s, commands), requests + Adds(commands))
    decreases |commands|
  {
    if commands == [] {
      assert requests + [] == requests;
    } else {
      var front, last := commands[..|commands| - 1], commands[|commands| - 1];
      ExecAllFits(s, front, requests);
      hide AsRequested, Exec;
      ExecFits(ExecAll(s, front), last, requests + Adds(front));
      assert [last][..0] == [] && Adds([last]) == if IsRequest(last) then [last] else [];
      assert requests + Adds(front) + Adds([last]) == requests + Adds(commands);
    }
  }

  lemma DeliverFits(s: Spec, requests: seq<Command>)
    requires s.tasks != [] && AsRequested(s, requests)
    ensures AsRequested(Deliver(s), requests)
  {
    var s' := Deliver(s);
    forall i | 0 <= i < |s'.tasks| ensures s'.tasks[i] == s.tasks[i + 1] {
    }
    forall id ensures HasFired(s'.log, id, |s'.log|) == HasFired(s.log, id, |s.log|) {
      SameFirings(s.log, s'.log, id);
    }
    forall i | 0 <= i < |s.log| ensures HasFired(s'.log, s.log[i].id, i) == HasFired(s.log, s.log[i].id, i) {
      EarlierFirings(s.log, s'.log, s.log[i].id, i);
    }
  }

  lemma LogFiring(s: Spec, t: Timer, now: int, requests: seq<Command>)
    requires AsRequested(s, requests) && t.id in s.live && s.live[t.id] == t
    ensures AsRequested(s.(log := s.log + [Fired(t.id, t.expiration, t.interval, now)]), requests)
  {
    var log := s.log + [Fired(t.id, t.expiration, t.interval, now)];
    forall id | id != t.id ensures HasFired(log, id, |log|) == HasFired(s.log, id, |s.log|) {
      SameFirings(s.log, log, id);
    }
    assert log[|s.log|].Fired? && HasFired(log, t.id, |log|);
    forall i | 0 <= i <= |s.log| ensures HasFired(log, log[i].id, i) == HasFired(s.log, log[i].id, i) {
      EarlierFirings(s.log, log, log[i].id, i);
    }
  }

  lemma FireOneFits(s: Spec, t: Timer, now: int, script: Script, requests: seq<Command>)
    requires AsRequested(s, requests) && (t.id in s.live ==> s.live[t.id] == t)
    ensures AsRequested(FireOne(s, t, now, script), requests + if t.id in s.live then Adds(Calls(script, t.id)) else [])
  {
    if t.id in s.live {
      LogFiring(s, t, now, requests);
      hide AsRequested;
      ExecAllFits(s.(log := s.log + [Fired(t.id, t.expiration, t.interval, now)]), Calls(script, t.id), requests);
    } else {
      assert requests + [] == requests;
    }
  }

  lemma FireOneLogged(s: Spec, t: Timer, now: int, script: Script)
    ensures
      var log := FireOne(s, t, now, script).log;
      s.log <= log && (t.id in s.live ==> HasFired(log, t.id, |log|))
  {
    if t.id in s.live {
      var logged := s.(log := s.log + [Fired(t.id, t.expiration, t.interval, now)]);
      ExecAllLogs(logged, Calls(script, t.id));
      var log := FireOne(s, t, now, script).log;
      assert log[|s.log|] == logged.log[|s.log|];
    }
  }

  lemma {:induction false} ExecAllLogs(s: Spec, commands: seq<Command>)
    ensures s.log <= ExecAll(s, commands).log
    decreases |commands|
  {
    if commands != [] {
      ExecAllLogs(s, commands[..|commands| - 1]);
    }
  }

  lemma {:induction false} FireFirstFits(s: Spec, due: seq<Timer>, k: nat, now: int, script: Script, requests: seq<Command>)
    requires AsRequested(s, requests) && IsDueOrder(s.live, now, due) && k <= |due|
    ensures AsRequested(FireFirst(s, due, k, now, script), requests + RoundRequests(s, due, k, now, script))
    decreases k
  {
    if k == 0 {
      assert requests + [] == requests;
    } else {
      FireFirstFits(s, due, k - 1, now, script, requests);
      TimerAtTurn(s, due, k - 1, now, script, requests);
      hide AsRequested, IsDueOrder, FireOne, Calls, Adds;
      var made := RoundRequests(s, due, k - 1, now, script);
      FireOneFits(FireFirst(s, due, k - 1, now, script), due[k - 1], now, script, requests + made);
      Regroup(requests, made, RoundRequests(s, due, k, now, script)[|made|..]);
    }
  }

  lemma Regroup(a: seq<Command>, b: seq<Command>, c: seq<Command>)
    ensures a + b + c == a + (b + c)
  {
  }

  lemma TimerAtTurn(s: Spec, due: seq<Timer>, k: nat, now: int, script: Script, requests: seq<Command>)
    requires AsRequested(s, requests) && IsDueOrder(s.live, now, due) && k < |due|
    ensures
      var live := FireFirst(s, due, k, now, script).live;
      due[k].id in live ==> live[due[k].id] == due[k]
  {
    assert due[k] in due && due[k].id <= s.lastId;
    FireFirstLive(s, due, k, now, script, due[k].id);
  }

  /** Of the timers that had their turn those still live have fired. */
  lemma {:induction false} TurnsAreLogged(s: Spec, due: seq<Timer>, k: nat, m: nat, now: int, script: Script)
    requires m < k <= |due| && due[m].id <= s.lastId && due[m].id in FireFirst(s, due, k, now, script).live
    ensures
      var log := FireFirst(s, due, k, now, script).log;
      HasFired(log, due[m].id, |log|)
    decreases k
  {
    var before, after := FireFirst(s, due, k - 1, now, script), FireFirst(s, due, k, now, script);
    StillLive(s, due, k - 1, now, script, due[m].id);
    FireOneLogged(before, due[k - 1], now, script);
    if m < k - 1 {
      TurnsAreLogged(s, due, k - 1, m, now, script);
      var i :| 0 <= i < |before.log| && before.log[i].Fired? && before.log[i].id == due[m].id;
      assert after.log[i] == before.log[i];
    }
  }

  lemma StillLive(s: Spec, due: seq<Timer>, k: nat, now: int, script: Script, id: TimerId)
    requires k < |due| && id <= s.lastId && id in FireFirst(s, due, k + 1, now, script).live
    ensures id in FireFirst(s, due, k, now, script).live
  {
    FireFirstLive(s, due, k, now, script, id);
    FireFirstLive(s, due, k + 1, now, script, id);
  }

  lemma ResetOneFits(s: Spec, t: Timer, now: int, requests: seq<Command>)
    requires AsRequested(s, requests) && t.expiration <= now
    requires t.id in s.live ==> s.live[t.id] == t && HasFired(s.log, t.id, |s.log|)
    ensures AsRequested(ResetOne(s, t, now), requests)
  {
  }

  lemma {:induction false} ResetFirstFits(s: Spec, due: seq<Timer>, k: nat, now: int, requests: seq<Command>)
    requires k <= |due| && DistinctIds(due) && AsRequested(s, requests)
    requires forall m | 0 <= m < |due| :: due[m].expiration <= now
    requires forall m | 0 <= m < |due| && due[m].id in s.live ::
               s.live[due[m].id] == due[m] && HasFired(s.log, due[m].id, |s.log|)
    ensures AsRequested(ResetFirst(s, due, k, now), requests)
    decreases k
  {
    if k > 0 {
      ResetFirstFits(s, due, k - 1, now, requests);
      var before := ResetFirst(s, due, k - 1, now);
      hide AsRequested, HasFired;
      ResetLogsNothing(s, due, k - 1, now);
      ResetOutcome(s, due, k - 1, now, due[k - 1].id);
      ResetOneFits(before, due[k - 1], now, requests);
    }
  }

  lemma RoundFits(s: Spec, due: seq<Timer>, now: int, script: Script, requests: seq<Command>)
    requires AsRequested(s, requests) && IsDueOrder(s.live, now, due)
    ensures AsRequested(Round(s, due, now, script), requests + RoundRequests(s, due, |due|, now, script))
  {
    var fired := FireFirst(s, due, |due|, now, script);
    FireFirstFits(s, due, |due|, now, script, requests);
    forall i, j | 0 <= i < j < |due| ensures due[i].id != due[j].id {
      assert due[i] in due && due[j] in due && Before(due[i], due[j]);
    }
    forall m | 0 <= m < |due| ensures due[m].expiration <= now { assert due[m] in due; }
    forall m | 0 <= m < |due| && due[m].id in fired.live
      ensures fired.live[due[m].id] == due[m] && HasFired(fired.log, due[m].id, |fired.log|)
    {
      assert due[m] in due && due[m].id <= s.lastId;
      FireFirstLive(s, due, |due|, now, script, due[m].id);
      TurnsAreLogged(s, due, |due|, m, now, script);
    }
    hide AsRequested;
    ResetFirstFits(fired, due, |due|, now, requests + RoundRequests(s, due, |due|, now, script));
  }

  /** Over every run: the n-th request drew id n, and whatever is live, queued or logged
      under that id has the interval asked for, the expiration asked for until the first
      firing, and never an earlier one. */
  lemma {:induction false} RunIsAsRequested(ops: seq<Op>)
    requires LegalRun(ops)
    ensures AsRequested(After(ops), Requests(ops))
    decreases |ops|
  {
    if ops != [] {
      var pre, last := ops[..|ops| - 1], ops[|ops| - 1];
      LegalPrefix(ops);
      hide LegalRun, AsRequested, Exec, Deliver, IsDueOrder;
      RunIsAsRequested(pre);
      match last
      case Do(c) => ExecFits(After(pre), c, Requests(pre));
      case DeliverTask =>
        assert Requests(ops) == Requests(pre);
        if After(pre).tasks != [] { DeliverFits(After(pre), Requests(pre)); }
      case FireRound(due, now, script) => RoundFits(After(pre), due, now, script, Requests(pre));
    }
  }

  /** Over every run: no timer fires before the time it was requested for, and its first
      firing has exactly the requested expiration. */
  lemma NeverEarly(ops: seq<Op>, i: nat)
    requires LegalRun(ops) && i < |After(ops).log| && After(ops).log[i].Fired?
    ensures
      var e, requests := After(ops).log[i], Requests(ops);
      && 1 <= e.id <= |requests| && IsRequest(requests[e.id - 1])
      && e.at >= e.expiration >= requests[e.id - 1].expiration
      && (!HasFired(After(ops).log, e.id, i) ==> e.expiration == requests[e.id - 1].expiration)
  {
    hide LegalRun, After, Requests;
    RunKeepsHistory(ops, 0);
    RunIsAsRequested(ops);
  }

  /** A timer that fires twice was requested with a positive interval and its firings are
      at least that interval apart (so a one-shot fires at most once); nothing fires after
      a logged cancellation. */
  lemma FiringsSpaced(ops: seq<Op>, i: nat, j: nat)
    requires LegalRun(ops) && i < j < |After(ops).log|
    requires After(ops).log[i].id == After(ops).log[j].id && After(ops).log[j].Fired?
    ensures
      var a, b, requests := After(ops).log[i], After(ops).log[j], Requests(ops);
      && 1 <= b.id <= |requests| && IsRequest(requests[b.id - 1])
      && a.Fired? && requests[b.id - 1].interval > 0 && b.at >= a.at + requests[b.id - 1].interval
  {
    hide LegalRun, After, Requests, IdsOk, LiveOk, LiveFits, TasksFit;
    RunKeepsHistory(ops, 0);
    RunIsAsRequested(ops);
    assert SpacedOk(After(ops).log[i], After(ops).log[j]);
  }
}
