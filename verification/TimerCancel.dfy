/** What a cancellation promises: exactly when a timer can never fire again. */
module TimerCancel {
  import opened TimerSpec
  import opened TimerQueues

  /** The operation cancels the timer on the loop thread, at once or out of the queue. */
  predicate Cancels(s: Spec, op: Op, id: TimerId) {
    op == Do(Cancel(id)) || (op == DeliverTask && s.tasks != [] && s.tasks[0] == CancelTask(id))
  }

  /** Another thread has drawn the id and its addition still lies in the loop's queue. */
  ghost predicate Queued(s: Spec, id: TimerId) {
    exists i :: 0 <= i < |s.tasks| && s.tasks[i].AddTask? && s.tasks[i].timer.id == id
  }

  /** Neither live nor to become live; no firing logged from position n on. */
  ghost predicate Silent(s: Spec, id: TimerId, n: nat) {
    && id <= s.lastId && id !in s.live && !Queued(s, id) && n <= |s.log|
    && forall i | n <= i < |s.log| :: !(s.log[i].Fired? && s.log[i].id == id)
  }

  // ---------------------------------------------------------------- a silent timer stays silent

  lemma ExecStaysSilent(s: Spec, c: Command, id: TimerId, n: nat)
    requires Silent(s, id, n)
    ensures Silent(Exec(s, c), id, n)
  {
  }

  lemma {:induction false} ExecAllStaysSilent(s: Spec, commands: seq<Command>, id: TimerId, n: nat)
    requires Silent(s, id, n)
    ensures Silent(ExecAll(s, commands), id, n)
    decreases |commands|
  {
    if commands != [] {
      ExecAllStaysSilent(s, commands[..|commands| - 1], id, n);
      ExecStaysSilent(ExecAll(s, commands[..|commands| - 1]), commands[|commands| - 1], id, n);
    }
  }

  lemma DeliverStaysSilent(s: Spec, id: TimerId, n: nat)
    requires s.tasks != [] && Silent(s, id, n)
    ensures Silent(Deliver(s), id, n)
  {
    var s' := Deliver(s);
    forall i | 0 <= i < |s'.tasks| ensures !(s'.tasks[i].AddTask? && s'.tasks[i].timer.id == id) {
      assert s'.tasks[i] == s.tasks[i + 1];
    }
  }

  lemma {:induction false} FiringStaysSilent(s: Spec, due: seq<Timer>, k: nat, now: int, script: Script, id: TimerId, n: nat)
    requires k <= |due| && Silent(s, id, n)
    ensures Silent(FireFirst(s, due, k, now, script), id, n)
    decreases k
  {
    if k > 0 {
      FiringStaysSilent(s, due, k - 1, now, script, id, n);
      var before, t := FireFirst(s, due, k - 1, now, script), due[k - 1];
      if t.id in before.live {
        ExecAllStaysSilent(before.(log := before.log + [Fired(t.id, t.expiration, t.interval, now)]), Calls(script, t.id), id, n);
      }
    }
  }

  lemma {:induction false} ResettingStaysSilent(s: Spec, due: seq<Timer>, k: nat, now: int, id: TimerId, n: nat)
    requires k <= |due| && Silent(s, id, n)
    ensures Silent(ResetFirst(s, due, k, now), id, n)
    decreases k
  {
    if k > 0 {
      ResettingStaysSilent(s, due, k - 1, now, id, n);
    }
  }

  lemma StaysSilent(s: Spec, op: Op, id: TimerId, n: nat)
    requires Silent(s, id, n)
    ensures Silent(Apply(s, op), id, n)
  {
    hide Silent, Exec, Deliver;
    match op
    case Do(c) => ExecStaysSilent(s, c, id, n);
    case DeliverTask => if s.tasks != [] { DeliverStaysSilent(s, id, n); }
    case FireRound(due, now, script) =>
      FiringStaysSilent(s, due, |due|, now, script, id, n);
      ResettingStaysSilent(FireFirst(s, due, |due|, now, script), due, |due|, now, id, n);
  }

  lemma {:induction false} RunStaysSilent(ops: seq<Op>, more: seq<Op>, id: TimerId, n: nat)
    requires Silent(After(ops), id, n)
    ensures Silent(After(ops + more), id, n)
    decreases |more|
  {
    hide Silent, Apply;
    if more == [] {
      assert ops + more == ops;
    } else {
      var front := more[..|more| - 1];
      RunStaysSilent(ops, front, id, n);
      assert ops + more == (ops + front) + [more[|more| - 1]];
      RunExtends(ops + front, more[|more| - 1]);
      StaysSilent(After(ops + front), more[|more| - 1], id, n);
    }
  }

  // ---------------------------------------------------------------- a queued timer can still fire

  /** Every moment has its due order. */
  lemma {:induction false} DueOrderExists(live: map<TimerId, Timer>, now: int) returns (due: seq<Timer>)
    requires forall id | id in live :: live[id].id == id
    ensures IsDueOrder(live, now, due)
    decreases |live|
  {
    if live == map[] {
      due := [];
    } else {
      var id :| id in live;
      var rest := live - {id};
      assert |rest| < |live| by { assert id !in rest && live == rest[id := live[id]]; }
      due := DueOrderExists(rest, now);
      if live[id].expiration <= now {
        var t := live[id];
        forall u ensures u in Emplace(due, t) <==> u in due || u == t { EmplaceHas(due, t, u); }
        EmplaceSorted(due, t);
        due := Emplace(due, t);
      }
    }
  }

  /** The continuation makes the timer live, and the log does not get shorter than n. */
  ghost predicate MakesLive(ops: seq<Op>, more: seq<Op>, t: Timer, n: nat) {
    var s := After(ops + more);
    LegalRun(ops + more) && n <= |s.log| && t.id in s.live && s.live[t.id] == t
  }

  lemma DeliverFirst(ops: seq<Op>, rest: seq<Op>, t: Timer, n: nat, m: nat)
    requires MakesLive(ops + [DeliverTask], rest, t, n) && m <= n
    ensures MakesLive(ops, [DeliverTask] + rest, t, m)
  {
    assert ops + ([DeliverTask] + rest) == ops + [DeliverTask] + rest;
  }

  /** The loop goes through its queue up to the addition. */
  lemma {:induction false} DeliverUntilLive(ops: seq<Op>, i: nat) returns (more: seq<Op>)
    requires LegalRun(ops) && i < |After(ops).tasks| && After(ops).tasks[i].AddTask?
    ensures MakesLive(ops, more, After(ops).tasks[i].timer, |After(ops).log|)
    decreases i
  {
    DeliverOnce(ops, i);
    more := [DeliverTask];
    if i > 0 {
      hide LegalRun, After, MakesLive;
      var rest := DeliverUntilLive(ops + [DeliverTask], i - 1);
      more := [DeliverTask] + rest;
      DeliverFirst(ops, rest, After(ops).tasks[i].timer, |After(ops + [DeliverTask]).log|, |After(ops).log|);
    }
  }

  lemma DeliverOnce(ops: seq<Op>, i: nat)
    requires LegalRun(ops) && i < |After(ops).tasks| && After(ops).tasks[i].AddTask?
    ensures LegalRun(ops + [DeliverTask]) && |After(ops).log| <= |After(ops + [DeliverTask]).log|
    ensures
      var s, s' := After(ops), After(ops + [DeliverTask]);
      && |s'.tasks| == |s.tasks| - 1 && (i > 0 ==> s'.tasks[i - 1] == s.tasks[i])
      && (i == 0 ==> s.tasks[0].timer.id in s'.live && s'.live[s.tasks[0].timer.id] == s.tasks[0].timer)
  {
    hide LegalRun, After;
    RunExtends(ops, DeliverTask);
  }

  /** In a round whose callbacks do nothing a due timer's firing is logged. */
  lemma {:induction false} QuietFiring(s: Spec, due: seq<Timer>, k: nat, m: nat, now: int)
    requires m < k <= |due| && due[m].id in s.live
    ensures
      var log := FireFirst(s, due, k, now, map[]).log;
      |s.log| < |log| && exists i :: |s.log| <= i < |log| && log[i].Fired? && log[i].id == due[m].id
    ensures FireFirst(s, due, k, now, map[]).live == s.live
    decreases k
  {
    QuietRound(s, due, k - 1, now);
    var before := FireFirst(s, due, k - 1, now, map[]);
    var log := FireFirst(s, due, k, now, map[]).log;
    if m == k - 1 {
      assert log[|before.log|].Fired? && log[|before.log|].id == due[m].id;
    } else {
      QuietFiring(s, due, k - 1, m, now);
      var i :| |s.log| <= i < |before.log| && before.log[i].Fired? && before.log[i].id == due[m].id;
      assert log[i] == before.log[i];
    }
  }

  lemma {:induction false} QuietRound(s: Spec, due: seq<Timer>, k: nat, now: int)
    requires k <= |due|
    ensures FireFirst(s, due, k, now, map[]).live == s.live && |s.log| <= |FireFirst(s, due, k, now, map[]).log|
    decreases k
  {
    if k > 0 {
      QuietRound(s, due, k - 1, now);
    }
  }

  /** The continuation of a run logs a firing of the timer. */
  ghost predicate FiresLater(ops: seq<Op>, more: seq<Op>, id: TimerId) {
    LegalRun(ops + more) && FiredFrom(After(ops + more).log, |After(ops).log|, id)
  }

  ghost predicate FiredFrom(log: seq<Event>, n: nat, id: TimerId) {
    exists i :: n <= i < |log| && log[i].Fired? && log[i].id == id
  }

  lemma LiveCanFire(ops: seq<Op>, id: TimerId) returns (round: Op)
    requires LegalRun(ops) && id in After(ops).live
    ensures FiresLater(ops, [round], id)
  {
    var s := After(ops);
    RunKeepsHistory(ops, 0);
    var t := s.live[id];
    var due := DueOrderExists(s.live, t.expiration);
    assert t in due;
    var m :| 0 <= m < |due| && due[m] == t;
    round := FireRound(due, t.expiration, map[]);
    RunExtends(ops, round);
    QuietFiring(s, due, |due|, m, t.expiration);
    ResetLogsNothing(FireFirst(s, due, |due|, t.expiration, map[]), due, |due|, t.expiration);
  }

  lemma QueuedCanFire(ops: seq<Op>, id: TimerId) returns (more: seq<Op>)
    requires LegalRun(ops) && Queued(After(ops), id)
    ensures FiresLater(ops, more, id)
  {
    var i :| 0 <= i < |After(ops).tasks| && After(ops).tasks[i].AddTask? && After(ops).tasks[i].timer.id == id;
    var front := DeliverUntilLive(ops, i);
    var round := LiveCanFire(ops + front, id);
    more := front + [round];
    assert ops + more == ops + front + [round];
    var log := After(ops + more).log;
    var j :| |After(ops + front).log| <= j < |log| && log[j].Fired? && log[j].id == id;
  }

  /** A cancellation of a drawn id is final, whatever happens later, if and only if no
      addition of the id by another thread is still in the loop's queue. */
  lemma CancelFinalIff(ops: seq<Op>, id: TimerId)
    requires LegalRun(ops) && ops != []
    requires Cancels(After(ops[..|ops| - 1]), ops[|ops| - 1], id) && id <= After(ops[..|ops| - 1]).lastId
    ensures Queued(After(ops), id) <==> exists more :: FiresLater(ops, more, id)
  {
    if Queued(After(ops), id) {
      var more := QueuedCanFire(ops, id);
    } else {
      var n := |After(ops).log|;
      assert Silent(After(ops), id, n);
      forall more ensures !FiresLater(ops, more, id) {
        RunStaysSilent(ops, more, id, n);
      }
    }
  }
}
