/** The timer queue: a priority queue with stale entries plus the set of live ids,
    proved to be the plain map of TimerSpec. */
module TimerQueues {
  import opened TimerSpec

  /** Contents of std::priority_queue with std::greater, in the order top and pop deliver them. */
  function Emplace(heap: seq<Timer>, t: Timer): seq<Timer> {
    if heap == [] || Before(t, heap[0]) then [t] + heap
    else [heap[0]] + Emplace(heap[1..], t)
  }

  lemma {:induction false} EmplaceHas(heap: seq<Timer>, t: Timer, u: Timer)
    ensures u in Emplace(heap, t) <==> u in heap || u == t
    decreases |heap|
  {
    if heap != [] && !Before(t, heap[0]) {
      EmplaceHas(heap[1..], t, u);
      assert heap == [heap[0]] + heap[1..];
    }
  }

  lemma {:induction false} EmplaceSorted(heap: seq<Timer>, t: Timer)
    requires Sorted(heap) && forall u | u in heap :: u.id != t.id
    ensures Sorted(Emplace(heap, t))
    decreases |heap|
  {
    var r := Emplace(heap, t);
    if heap == [] {
    } else if Before(t, heap[0]) {
      forall i, j | 0 <= i < j < |r| ensures Before(r[i], r[j]) {
        if i > 0 {
          assert Before(heap[i - 1], heap[j - 1]);
        } else if j > 1 {
          assert Before(heap[0], heap[j - 1]);
        }
      }
    } else {
      var rest := Emplace(heap[1..], t);
      EmplaceSorted(heap[1..], t);
      assert heap[0] in heap && Before(heap[0], t);
      forall j | 0 <= j < |rest| ensures Before(heap[0], rest[j]) {
        EmplaceHas(heap[1..], t, rest[j]);
        if rest[j] != t {
          var i :| 0 <= i < |heap[1..]| && heap[1..][i] == rest[j];
          assert Before(heap[0], heap[i + 1]);
        }
      }
    }
  }

  /** The timers of s whose id is still live. */
  function Living(s: seq<Timer>, ids: set<TimerId>): seq<Timer> {
    if s == [] then []
    else Living(s[..|s| - 1], ids) + (if s[|s| - 1].id in ids then [s[|s| - 1]] else [])
  }

  lemma {:induction false} LivingIs(s: seq<Timer>, ids: set<TimerId>)
    ensures forall t :: t in Living(s, ids) <==> t in s && t.id in ids
    ensures Sorted(s) ==> Sorted(Living(s, ids))
    decreases |s|
  {
    if s != [] {
      LivingIs(s[..|s| - 1], ids);
      assert s == s[..|s| - 1] + [s[|s| - 1]];
      if Sorted(s) {
        var front := Living(s[..|s| - 1], ids);
        forall i | 0 <= i < |front| ensures Before(front[i], s[|s| - 1]) {
          assert front[i] in s[..|s| - 1];
        }
      }
    }
  }

  lemma {:induction false} LivingPrefix(s: seq<Timer>, k: nat, ids: set<TimerId>)
    requires k <= |s|
    ensures Living(s[..k], ids) <= Living(s, ids)
    ensures k > 0 ==> Living(s[..k], ids) == Living(s[..k - 1], ids) + (if s[k - 1].id in ids then [s[k - 1]] else [])
    decreases |s|
  {
    if k > 0 {
      assert s[..k][..k - 1] == s[..k - 1];
    }
    if k < |s| {
      LivingPrefix(s[..|s| - 1], k, ids);
      assert s[..|s| - 1][..k] == s[..k];
    } else {
      assert s[..k] == s;
    }
  }

  /** The entries of the priority queue together with those popped by a running round,
      one an id; `entries` is that correspondence. */
  ghost predicate HeapIs(heap: seq<Timer>, out: seq<Timer>, entries: map<TimerId, Timer>) {
    && Sorted(heap) && Sorted(out)
    && (forall t | t in heap :: t.id in entries && entries[t.id] == t && t !in out)
    && (forall t | t in out :: t.id in entries && entries[t.id] == t)
    && (forall id | id in entries :: entries[id].id == id && (entries[id] in heap || entries[id] in out))
  }

  /** The live timers: entries whose id is in the id set; the others are stale. */
  ghost function LiveOf(entries: map<TimerId, Timer>, ids: set<TimerId>): map<TimerId, Timer> {
    map id | id in entries && id in ids :: entries[id]
  }

  lemma LiveWithout(entries: map<TimerId, Timer>, ids: set<TimerId>, id: TimerId, t: Timer)
    requires id in entries
    ensures id in ids ==> LiveOf((entries - {id})[id := t], ids) == LiveOf(entries, ids)[id := t]
    ensures LiveOf(entries - {id}, ids - {id}) == LiveOf(entries, ids) - {id}
    ensures id !in ids ==> LiveOf(entries - {id}, ids) == LiveOf(entries, ids)
    ensures id in LiveOf(entries, ids) <==> id in ids
  {
  }

  ghost predicate EntryIdsOk(entries: map<TimerId, Timer>, ids: set<TimerId>, lastId: TimerId, tasks: seq<Task>) {
    && ids <= entries.Keys
    && (forall id | id in entries :: 1 <= id <= lastId)
    && (forall i | 0 <= i < |tasks| && tasks[i].AddTask? :: FreshId(tasks[i].timer.id, entries, lastId))
    && (forall i, j | 0 <= i < j < |tasks| && tasks[i].AddTask? && tasks[j].AddTask? ::
          tasks[i].timer.id != tasks[j].timer.id)
  }

  lemma IdsWithout(entries: map<TimerId, Timer>, ids: set<TimerId>, lastId: TimerId, tasks: seq<Task>, id: TimerId, t: Timer)
    requires EntryIdsOk(entries, ids, lastId, tasks) && id in entries
    ensures EntryIdsOk((entries - {id})[id := t], ids, lastId, tasks)
    ensures EntryIdsOk(entries - {id}, ids - {id}, lastId, tasks)
    ensures id !in ids ==> EntryIdsOk(entries - {id}, ids, lastId, tasks)
  {
    assert id !in ids ==> ids - {id} == ids;
    forall i | 0 <= i < |tasks| && tasks[i].AddTask?
      ensures FreshId(tasks[i].timer.id, (entries - {id})[id := t], lastId)
    {
      assert FreshId(tasks[i].timer.id, entries, lastId);
    }
  }

  ghost predicate FreshId(id: TimerId, entries: map<TimerId, Timer>, lastId: TimerId) {
    1 <= id <= lastId && id !in entries
  }

  ghost predicate NotQueued(tasks: seq<Task>, id: TimerId) {
    forall i | 0 <= i < |tasks| && tasks[i].AddTask? :: tasks[i].timer.id != id
  }

  lemma HeapAdds(heap: seq<Timer>, out: seq<Timer>, entries: map<TimerId, Timer>, t: Timer)
    requires HeapIs(heap, out, entries) && t.id !in entries
    ensures HeapIs(Emplace(heap, t), out, entries[t.id := t])
  {
    EmplaceSorted(heap, t);
    forall u ensures u in Emplace(heap, t) <==> u in heap || u == t { EmplaceHas(heap, t, u); }
  }

  /** Taking the first popped entry out of the correspondence. */
  lemma HeapDrops(heap: seq<Timer>, t: Timer, rest: seq<Timer>, entries: map<TimerId, Timer>)
    requires HeapIs(heap, [t] + rest, entries)
    ensures t.id in entries && HeapIs(heap, rest, entries - {t.id})
  {
    var out := [t] + rest;
    assert out[0] == t && out[1..] == rest;
    assert t in out;
    forall i | 0 <= i < |rest| ensures rest[i] in out && rest[i] != t && rest[i].id != t.id {
      assert rest[i] == out[i + 1] && Before(out[0], out[i + 1]);
    }
    forall u | u in heap ensures u.id != t.id {
      assert u !in out;
    }
    forall i, j | 0 <= i < j < |rest| ensures Before(rest[i], rest[j]) {
      assert Before(out[i + 1], out[j + 1]);
    }
  }

  /** Popping from the top moves entries from the heap to `out`. */
  lemma HeapPops(all: seq<Timer>, out: seq<Timer>, heap: seq<Timer>, entries: map<TimerId, Timer>)
    requires HeapIs(all, [], entries) && all == out + heap
    ensures HeapIs(heap, out, entries)
    ensures forall t | t in heap :: t.expiration >= heap[0].expiration
  {
    forall i, j | 0 <= i < |out| && 0 <= j < |heap| ensures out[i] != heap[j] {
      assert Before(all[i], all[|out| + j]);
    }
    forall i, j | 0 <= i < j < |heap| ensures Before(heap[i], heap[j]) {
      assert Before(all[|out| + i], all[|out| + j]);
    }
    forall i, j | 0 <= i < j < |out| ensures Before(out[i], out[j]) {
      assert Before(all[i], all[j]);
    }
    forall t | t in heap ensures t in all && t !in out && t.expiration >= heap[0].expiration {
      TopIsLeast(heap, t);
      var j :| 0 <= j < |heap| && heap[j] == t;
      assert all[|out| + j] == t;
    }
    forall t | t in out ensures t in all {
      var i :| 0 <= i < |out| && out[i] == t;
      assert all[i] == t;
    }
    forall id | id in entries ensures entries[id] in heap || entries[id] in out {
      assert entries[id] in all;
    }
  }

  lemma TopIsLeast(heap: seq<Timer>, t: Timer)
    requires Sorted(heap) && t in heap
    ensures t == heap[0] || Before(heap[0], t)
  {
  }

  /** Going through the popped entries, stale ones included, is going through the due ones. */
  lemma FireNext(s: Spec, expired: seq<Timer>, ids: set<TimerId>, k: nat, now: int, script: Script)
    requires k < |expired| && expired[k].id <= s.lastId && (expired[k].id in s.live ==> expired[k].id in ids)
    ensures
      var due := Living(expired, ids);
      var j, j' := |Living(expired[..k], ids)|, |Living(expired[..k + 1], ids)|;
      && j <= |due| && j' <= |due|
      && FireFirst(s, due, j', now, script) == FireOne(FireFirst(s, due, j, now, script), expired[k], now, script)
  {
    var due := Living(expired, ids);
    LivingPrefix(expired, k + 1, ids);
    LivingPrefix(expired, k, ids);
    var j := |Living(expired[..k], ids)|;
    FireFirstLive(s, due, j, now, script, expired[k].id);
    if expired[k].id in ids {
      assert due[j] == Living(expired[..k + 1], ids)[j];
    }
  }

  lemma ResetNext(s: Spec, expired: seq<Timer>, ids: set<TimerId>, k: nat, now: int)
    requires k < |expired|
    requires expired[k].id in s.live ==> expired[k].id in ids
    ensures
      var due := Living(expired, ids);
      var j, j' := |Living(expired[..k], ids)|, |Living(expired[..k + 1], ids)|;
      && j <= |due| && j' <= |due|
      && ResetFirst(s, due, j', now) == ResetOne(ResetFirst(s, due, j, now), expired[k], now)
  {
    var due := Living(expired, ids);
    LivingPrefix(expired, k + 1, ids);
    LivingPrefix(expired, k, ids);
    var j := |Living(expired[..k], ids)|;
    ResetAddsNoId(s, due, j, now);
    if expired[k].id in ids {
      assert due[j] == Living(expired[..k + 1], ids)[j];
    }
  }

  lemma {:induction false} ResetAddsNoId(s: Spec, due: seq<Timer>, k: nat, now: int)
    requires k <= |due|
    ensures ResetFirst(s, due, k, now).live.Keys <= s.live.Keys
    decreases k
  {
    if k > 0 {
      ResetAddsNoId(s, due, k - 1, now);
    }
  }

  const INT_MAX: int := 0x7fff_ffff

  class TimerQueue {
    var timers: seq<Timer>
    var timerIds: set<TimerId>
    var lastId: TimerId          // the process-wide counter of GenerateTimerId
    var tasks: seq<Task>         // what other threads have queued in the loop for this object
    ghost var log: seq<Event>

    ghost var entries: map<TimerId, Timer>

    /** `out`: entries a firing round has popped and not yet put back. */
    ghost predicate ValidWith(out: seq<Timer>)
      reads this
    {
      HeapIs(timers, out, entries) && EntryIdsOk(entries, timerIds, lastId, tasks)
    }

    ghost function View(out: seq<Timer>): Spec
      reads this
      requires ValidWith(out)
    {
      Spec(LiveOf(entries, timerIds), lastId, tasks, log)
    }

    constructor ()
      ensures ValidWith([]) && View([]) == Empty
    {
      timers, timerIds, lastId, tasks, log, entries := [], {}, 0, [], [], map[];
    }

    /** Unique and never zero. */
    method GenerateTimerId(ghost out: seq<Timer>) returns (id: TimerId)
      requires ValidWith(out)
      modifies this`lastId
      ensures id == lastId == old(lastId) + 1 && id != 0
      ensures ValidWith(out) && FreshId(id, entries, lastId) && NotQueued(tasks, id)
      ensures View(out) == old(View(out)).(lastId := id)
    {
      lastId := lastId + 1;
      id := lastId;
    }

    method AddTimerInLoop(t: Timer, ghost out: seq<Timer>)
      requires ValidWith(out) && FreshId(t.id, entries, lastId) && NotQueued(tasks, t.id)
      modifies this`timers, this`timerIds, this`entries
      ensures ValidWith(out)
      ensures View(out) == old(View(out)).(live := old(View(out)).live[t.id := t])
    {
      HeapAdds(timers, out, entries, t);
      timerIds := timerIds + {t.id};
      timers := Emplace(timers, t);
      entries := entries[t.id := t];
      hide HeapIs;
      assert LiveOf(entries, timerIds) == old(LiveOf(entries, timerIds))[t.id := t];
    }

    /** Returns what the source asserts: the id was live. */
    method DelTimerInLoop(id: TimerId, ghost out: seq<Timer>) returns (erased: bool)
      requires ValidWith(out)
      modifies this`timerIds, this`log
      ensures ValidWith(out)
      ensures View(out) == CancelLive(old(View(out)), id)
      ensures erased <==> id in old(View(out)).live
    {
      hide HeapIs;
      erased := id in timerIds;
      timerIds := timerIds - {id};
      log := if erased then log + [Cancelled(id)] else log;
      assert LiveOf(entries, timerIds) == old(LiveOf(entries, timerIds)) - {id};
      assert !erased ==> LiveOf(entries, timerIds) == old(LiveOf(entries, timerIds));
    }

    method AddTimer(inLoopThread: bool, expiration: int, interval: int, ghost out: seq<Timer>) returns (id: TimerId)
      requires ValidWith(out)
      modifies this
      ensures ValidWith(out) && id == lastId == old(lastId) + 1
      ensures View(out) == Exec(old(View(out)), if inLoopThread then Add(expiration, interval) else PostAdd(expiration, interval))
      ensures inLoopThread ==>
        View(out).live == old(View(out)).live[id := Timer(id, expiration, interval)] && tasks == old(tasks)
      ensures !inLoopThread ==>
        View(out).live == old(View(out)).live && tasks == old(tasks) + [AddTask(Timer(id, expiration, interval))]
    {
      id := GenerateTimerId(out);
      var t := Timer(id, expiration, interval);
      if inLoopThread {
        AddTimerInLoop(t, out);
      } else {
        tasks := tasks + [AddTask(t)];
      }
    }

    method DelTimer(inLoopThread: bool, id: TimerId, ghost out: seq<Timer>)
      requires ValidWith(out)
      modifies this
      ensures ValidWith(out)
      ensures View(out) == Exec(old(View(out)), if inLoopThread then Cancel(id) else PostCancel(id))
      ensures inLoopThread ==> View(out).live == old(View(out)).live - {id} && tasks == old(tasks)
      ensures !inLoopThread ==> View(out).live == old(View(out)).live && tasks == old(tasks) + [CancelTask(id)]
    {
      if inLoopThread {
        var _ := DelTimerInLoop(id, out);
      } else {
        tasks := tasks + [CancelTask(id)];
      }
    }

    /** The loop drains one queued task. */
    method RunTask()
      requires ValidWith([]) && tasks != []
      modifies this
      ensures ValidWith([])
      ensures View([]) == Deliver(old(View([])))
      ensures tasks == old(tasks)[1..]
      ensures View([]).live == match old(tasks)[0]
        case AddTask(t) => old(View([])).live[t.id := t]
        case CancelTask(id) => old(View([])).live - {id}
    {
      var task := tasks[0];
      tasks := tasks[1..];
      assert forall i | 0 <= i < |tasks| :: tasks[i] == old(tasks)[i + 1];
      match task {
        case AddTask(t) => AddTimerInLoop(t, []);
        case CancelTask(id) => var _ := DelTimerInLoop(id, []);
      }
    }

    method RunCommand(command: Command, ghost out: seq<Timer>)
      requires ValidWith(out)
      modifies this
      ensures ValidWith(out)
      ensures View(out) == Exec(old(View(out)), command)
    {
      match command {
        case Add(expiration, interval) => var _ := AddTimer(true, expiration, interval, out);
        case Cancel(id) => DelTimer(true, id, out);
        case PostAdd(expiration, interval) => var _ := AddTimer(false, expiration, interval, out);
        case PostCancel(id) => DelTimer(false, id, out);
      }
    }

    /** timerPtr->run(): the callback, and whatever other threads do meanwhile. */
    method RunCallback(commands: seq<Command>, ghost out: seq<Timer>)
      requires ValidWith(out)
      modifies this
      ensures ValidWith(out)
      ensures View(out) == ExecAll(old(View(out)), commands)
    {
      for i := 0 to |commands|
        invariant ValidWith(out)
        invariant View(out) == ExecAll(old(View(out)), commands[..i])
      {
        assert commands[..i + 1][..i] == commands[..i];
        RunCommand(commands[i], out);
      }
      assert commands[..|commands|] == commands;
    }

    method GetExpiredTimers(now: int) returns (expired: seq<Timer>)
      requires ValidWith([])
      modifies this`timers
      ensures ValidWith(expired) && View(expired) == old(View([]))
      ensures forall t | t in expired :: t.expiration <= now
      ensures forall t | t in timers :: t.expiration > now
    {
      expired := [];
      hide EntryIdsOk, HeapIs, Sorted;
      while timers != []
        invariant expired + timers == old(timers)
        invariant forall t | t in expired :: t.expiration <= now
        decreases |timers|
      {
        var top := timers[0];
        if top.expiration <= now {
          expired := expired + [top];
          timers := timers[1..];
        } else {
          break;
        }
      }
      HeapPops(old(timers), expired, timers, entries);
    }

    /** A popped entry is live exactly when its id still is. */
    lemma LiveIffId(t: Timer, out: seq<Timer>)
      requires ValidWith(out) && t in out
      ensures t.id in timerIds <==> t.id in View(out).live
      ensures t.id in timerIds ==> View(out).live[t.id] == t
      ensures t.id <= lastId
    {
    }

    /** Fires the due timers. `due` (a witness for the contract) is their order. */
    method HandlerTimer(now: int, script: Script) returns (ghost due: seq<Timer>)
      requires ValidWith([])
      modifies this
      ensures ValidWith([])
      ensures IsDueOrder(old(View([])).live, now, due)
      ensures View([]) == Round(old(View([])), due, now, script)
    {
      ghost var s0 := View([]);
      var expired := GetExpiredTimers(now);
      due := Living(expired, timerIds);
      LivingIs(expired, timerIds);
      DueIsLiving(expired, now, due);
      forall t | t in expired ensures t.id <= s0.lastId && (t.id in timerIds <==> t.id in s0.live) {
        LiveIffId(t, expired);
      }
      assert expired[..0] == [] && Living([], timerIds) == [] && FireFirst(s0, due, 0, now, script) == s0;
      ghost var ids := timerIds;
      hide HeapIs, EntryIdsOk, LiveOf, IsDueOrder, FireOne, FireFirst, Living;
      for k := 0 to |expired|
        invariant ValidWith(expired)
        invariant |Living(expired[..k], ids)| <= |due|
        invariant View(expired) == FireFirst(s0, due, |Living(expired[..k], ids)|, now, script)
      {
        FireNext(s0, expired, ids, k, now, script);
        FireTurn(expired[k], now, script, expired);
      }
      assert expired[..|expired|] == expired;
      FiringAddsNoOldId(s0, due, expired, now, script);
      ResetExpiredTimers(expired, now, ids);
    }

    lemma FiringAddsNoOldId(s0: Spec, due: seq<Timer>, expired: seq<Timer>, now: int, script: Script)
      requires ValidWith(expired) && View(expired) == FireFirst(s0, due, |due|, now, script)
      requires forall t | t in expired :: t.id <= s0.lastId
      ensures forall t | t in expired && t.id in timerIds :: t.id in s0.live
    {
      forall t | t in expired && t.id in timerIds ensures t.id in s0.live {
        FireFirstLive(s0, due, |due|, now, script, t.id);
        LiveIffId(t, expired);
      }
    }

    /** One turn of the firing loop: skipped if the id was cancelled meanwhile. */
    method FireTurn(t: Timer, now: int, script: Script, ghost out: seq<Timer>)
      requires ValidWith(out) && t in out
      modifies this
      ensures ValidWith(out)
      ensures View(out) == FireOne(old(View(out)), t, now, script)
    {
      LiveIffId(t, out);
      if t.id in timerIds {
        log := log + [Fired(t.id, t.expiration, t.interval, now)];
        RunCallback(Calls(script, t.id), out);
      }
    }

    /** The first k popped entries have been reset, those still live in due order. */
    ghost predicate ResetUpTo(s0: Spec, expired: seq<Timer>, ids: set<TimerId>, k: nat, now: int)
      reads this
      requires k <= |expired|
    {
      && ValidWith(expired[k..]) && |Living(expired[..k], ids)| <= |Living(expired, ids)|
      && View(expired[k..]) == ResetFirst(s0, Living(expired, ids), |Living(expired[..k], ids)|, now)
      && forall t | t in expired && t.id in s0.live :: t.id in ids
    }

    method ResetExpiredTimers(expired: seq<Timer>, now: int, ghost ids: set<TimerId>)
      requires ValidWith(expired)
      requires forall t | t in expired && t.id in timerIds :: t.id in ids
      modifies this`timers, this`timerIds, this`entries
      ensures ValidWith([])
      ensures View([]) == ResetFirst(old(View(expired)), Living(expired, ids), |Living(expired, ids)|, now)
    {
      ghost var s0 := View(expired);
      forall t | t in expired && t.id in s0.live ensures t.id in ids { LiveIffId(t, expired); }
      assert expired[0..] == expired;
      for k := 0 to |expired|
        invariant ResetUpTo(s0, expired, ids, k, now)
      {
        hide *;
        ResetTurn(s0, expired, ids, k, now);
      }
      assert expired[..|expired|] == expired && expired[|expired|..] == [];
    }

    /** One turn of the reset loop. */
    method ResetTurn(ghost s0: Spec, expired: seq<Timer>, ghost ids: set<TimerId>, k: nat, now: int)
      requires k < |expired| && ResetUpTo(s0, expired, ids, k, now)
      modifies this`timers, this`timerIds, this`entries
      ensures ResetUpTo(s0, expired, ids, k + 1, now)
    {
      hide HeapIs, EntryIdsOk, LiveOf, ResetOne, ResetFirst, Living;
      ResetNext(s0, expired, ids, k, now);
      assert expired[k..] == [expired[k]] + expired[k + 1..];
      ResetOneTimer(expired[k], expired[k + 1..], now);
    }

    method ResetOneTimer(t: Timer, ghost rest: seq<Timer>, now: int)
      requires ValidWith([t] + rest)
      modifies this`timers, this`timerIds, this`entries
      ensures ValidWith(rest)
      ensures View(rest) == ResetOne(old(View([t] + rest)), t, now)
      ensures t.id !in old(timerIds) ==> View(rest).live == old(View([t] + rest)).live
      ensures t.id in old(timerIds) && t.interval > 0 ==>
        View(rest).live == old(View([t] + rest)).live[t.id := Timer(t.id, now + t.interval, t.interval)]
      ensures t.id in old(timerIds) && t.interval <= 0 ==> View(rest).live == old(View([t] + rest)).live - {t.id}
      ensures timerIds <= old(timerIds)
    {
      HeapDrops(timers, t, rest, entries);
      assert ([t] + rest)[0] == t && t.id in entries;
      LiveWithout(entries, timerIds, t.id, t.ResetExpiration(now));
      IdsWithout(entries, timerIds, lastId, tasks, t.id, t.ResetExpiration(now));
      entries := entries - {t.id};
      hide HeapIs, LiveOf, EntryIdsOk;
      if t.id in timerIds {
        if t.IsRepeat() {
          var t' := t.ResetExpiration(now);
          HeapAdds(timers, rest, entries, t');
          timers := Emplace(timers, t');
          entries := entries[t.id := t'];
        } else {
          timerIds := timerIds - {t.id};
        }
      }
    }

    /** -1 means no timer at all; otherwise never past the expiration of a live timer, and
        not before the expiration of some entry, if only a cancelled one. */
    method GetNextTimeout(now: int) returns (timeout: int)
      requires ValidWith([])
      ensures -1 <= timeout <= INT_MAX && (timeout == -1 <==> timers == [])
      ensures timeout == -1 ==> View([]).live == map[]
      ensures 0 <= timeout < INT_MAX ==> exists t | t in timers :: t.expiration <= now + timeout
      ensures timeout >= 0 ==> forall id | id in View([]).live ::
        now + timeout <= (if View([]).live[id].expiration > now then View([]).live[id].expiration else now)
      ensures timeout > 0 ==> forall id | id in View([]).live :: View([]).live[id].expiration > now
    {
      if timers == [] {
        return -1;
      }
      var top := timers[0];
      forall t | t in timers ensures t.expiration >= top.expiration { TopIsLeast(timers, t); }
      if top.expiration <= now {
        return 0;
      }
      var diff := top.expiration - now;
      if diff > INT_MAX {
        diff := INT_MAX;
      }
      timeout := diff;
    }

    lemma DueIsLiving(expired: seq<Timer>, now: int, due: seq<Timer>)
      requires ValidWith(expired) && due == Living(expired, timerIds)
      requires forall t | t in expired :: t.expiration <= now
      requires forall t | t in timers :: t.expiration > now
      ensures IsDueOrder(View(expired).live, now, due)
    {
      LivingIs(expired, timerIds);
    }
  }

  /** What happens to a timer queue: calls from user code, the loop running a queued task,
      and the loop's handlerTimer at some time. */
  datatype Call = UserCall(command: Command) | RunQueued | Handle(now: int, script: Script)

  predicate Matches(call: Call, op: Op) {
    match call
    case UserCall(command) => op == Do(command)
    case RunQueued => op == DeliverTask
    case Handle(now, script) => op.FireRound? && op.now == now && op.script == script
  }

  /** Whatever is called on the queue is a legal run of the specification, so everything
      proved of those runs is true of the queue. */
  method Drive(q: TimerQueue, calls: seq<Call>) returns (ghost ops: seq<Op>)
    requires q.ValidWith([]) && q.View([]) == Empty
    modifies q
    ensures |ops| == |calls| && forall k | 0 <= k < |calls| :: Matches(calls[k], ops[k])
    ensures LegalRun(ops) && q.ValidWith([]) && q.View([]) == After(ops)
  {
    ops := [];
    hide HeapIs, EntryIdsOk, LiveOf, IsDueOrder, Round, Exec, Deliver;
    for k := 0 to |calls|
      invariant q.ValidWith([]) && |ops| == k && LegalRun(ops) && q.View([]) == After(ops)
      invariant forall j | 0 <= j < k :: Matches(calls[j], ops[j])
    {
      ghost var op := DeliverTask;
      match calls[k] {
        case UserCall(command) =>
          q.RunCommand(command, []);
          op := Do(command);
        case RunQueued =>
          if q.tasks != [] { q.RunTask(); }
        case Handle(now, script) =>
          ghost var due := q.HandlerTimer(now, script);
          op := FireRound(due, now, script);
      }
      RunExtends(ops, op);
      ops := ops + [op];
    }
  }

  lemma RunExtends(ops: seq<Op>, op: Op)
    ensures After(ops + [op]) == Apply(After(ops), op)
    ensures LegalRun(ops) && Possible(After(ops), op) ==> LegalRun(ops + [op])
  {
    assert (ops + [op])[..|ops|] == ops;
    assert forall k | 0 <= k <= |ops| :: (ops + [op])[..k] == ops[..k];
  }
}
