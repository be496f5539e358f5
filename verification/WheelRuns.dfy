/** Whole runs of the timing wheel: any interleaving of insertions and ticks. */
module WheelRuns {
  import opened Radix
  import opened WheelModel
  import opened TimingWheel

  datatype Op = Insert(delay: int, entry: EntryId) | Tick

  /** The constructor's choices: tick length, buckets a wheel, number of wheels. */
  datatype Config = Config(ticksInterval: nat, b: nat, w: nat) {
    ghost predicate Valid() { ticksInterval >= 1 && b >= 2 && w >= 1 }
  }

  ghost predicate Legal(c: Config, ops: seq<Op>)
    requires c.Valid()
  {
    forall k | 0 <= k < |ops| && ops[k].Insert? :: ops[k].delay + c.ticksInterval > 0
  }

  function Ticks(ops: seq<Op>): nat {
    if ops == [] then 0
    else Ticks(ops[..|ops| - 1]) + (if ops[|ops| - 1].Tick? then 1 else 0)
  }

  /** Tick at which the insertion at position k lets its entry go. */
  ghost function DueOf(c: Config, ops: seq<Op>, k: nat): (n: nat)
    requires c.Valid() && Legal(c, ops) && k < |ops| && ops[k].Insert?
    ensures n > Ticks(ops[..k])
  {
    var d := TickDistance(ops[k].delay, c.ticksInterval);
    ReleaseTickBounds(c.b, c.w, Ticks(ops[..k]), d);
    ReleaseTick(c.b, c.w, Ticks(ops[..k]), d)
  }

  ghost predicate InsertsAt(c: Config, ops: seq<Op>, k: nat, n: nat, entry: EntryId)
    requires c.Valid() && Legal(c, ops) && k < |ops|
  {
    ops[k].Insert? && ops[k].entry == entry && DueOf(c, ops, k) == n
  }

  /** Some insertion of the run is due at tick n and carries the entry. */
  ghost predicate Scheduled(c: Config, ops: seq<Op>, n: nat, entry: EntryId)
    requires c.Valid() && Legal(c, ops)
  {
    exists k | 0 <= k < |ops| :: InsertsAt(c, ops, k, n, entry)
  }

  /** The flat calendar after a run, and what each tick of the run let go. */
  ghost function CalendarAfter(c: Config, ops: seq<Op>): set<(nat, EntryId)>
    requires c.Valid() && Legal(c, ops)
  {
    if ops == [] then {}
    else
      var before := CalendarAfter(c, ops[..|ops| - 1]);
      if ops[|ops| - 1].Tick? then set p | p in before && p.0 != Ticks(ops)
      else before + {(DueOf(c, ops, |ops| - 1), ops[|ops| - 1].entry)}
  }

  ghost function Log(c: Config, ops: seq<Op>): (log: seq<set<EntryId>>)
    requires c.Valid() && Legal(c, ops)
    ensures |log| == Ticks(ops)
  {
    if ops == [] then []
    else
      var pre := ops[..|ops| - 1];
      if ops[|ops| - 1].Tick? then Log(c, pre) + [set p | p in CalendarAfter(c, pre) && p.0 == Ticks(ops) :: p.1]
      else Log(c, pre)
  }

  /** A later operation does not move a due tick. */
  lemma PrefixDue(c: Config, ops: seq<Op>, k: nat)
    requires c.Valid() && Legal(c, ops) && k < |ops| - 1 && ops[k].Insert?
    ensures Legal(c, ops[..|ops| - 1]) && DueOf(c, ops[..|ops| - 1], k) == DueOf(c, ops, k)
  {
    assert ops[..|ops| - 1][..k] == ops[..k];
  }

  lemma ScheduledExtends(c: Config, ops: seq<Op>, n: nat, entry: EntryId)
    requires c.Valid() && Legal(c, ops) && ops != []
    ensures
      var last := |ops| - 1;
      Scheduled(c, ops, n, entry) <==>
        || Scheduled(c, ops[..last], n, entry)
        || InsertsAt(c, ops, last, n, entry)
  {
    var last := |ops| - 1;
    var pre := ops[..last];
    forall k | 0 <= k < last
      ensures InsertsAt(c, pre, k, n, entry) == InsertsAt(c, ops, k, n, entry)
    {
      if ops[k].Insert? {
        PrefixDue(c, ops, k);
      }
    }
    hide InsertsAt;
    if Scheduled(c, pre, n, entry) {
      var k :| 0 <= k < |pre| && InsertsAt(c, pre, k, n, entry);
      assert InsertsAt(c, ops, k, n, entry);
    }
    if Scheduled(c, ops, n, entry) {
      var k :| 0 <= k < |ops| && InsertsAt(c, ops, k, n, entry);
      assert k < last ==> InsertsAt(c, pre, k, n, entry);
    }
  }

  /** The calendar holds exactly the scheduled releases still ahead. */
  lemma {:induction false} CalendarIsTheFuture(c: Config, ops: seq<Op>, n: nat, entry: EntryId)
    requires c.Valid() && Legal(c, ops)
    ensures (n, entry) in CalendarAfter(c, ops) <==> n > Ticks(ops) && Scheduled(c, ops, n, entry)
    decreases |ops|
  {
    if ops != [] {
      CalendarIsTheFuture(c, ops[..|ops| - 1], n, entry);
      ScheduledExtends(c, ops, n, entry);
      assert ops[..|ops| - 1] + [ops[|ops| - 1]] == ops;
    }
  }

  /** Tick n lets go exactly the entries with an insertion due at n: nothing early,
      late, lost or added, whatever else was inserted and however ticks interleave. */
  lemma {:induction false} ReleasedExactlyWhenDue(c: Config, ops: seq<Op>, n: nat, entry: EntryId)
    requires c.Valid() && Legal(c, ops) && 1 <= n <= Ticks(ops)
    ensures entry in Log(c, ops)[n - 1] <==> Scheduled(c, ops, n, entry)
    decreases |ops|
  {
    var pre := ops[..|ops| - 1];
    ScheduledExtends(c, ops, n, entry);
    if n <= Ticks(pre) {
      ReleasedExactlyWhenDue(c, pre, n, entry);
    } else {
      CalendarIsTheFuture(c, pre, n, entry);
    }
  }

  /** A shared entry inserted several times stays referenced until the latest of its due ticks. */
  lemma HeldUntilLatestDue(c: Config, ops: seq<Op>, entry: EntryId)
    requires c.Valid() && Legal(c, ops)
    ensures entry in (set p | p in CalendarAfter(c, ops) :: p.1)
       <==> exists k | 0 <= k < |ops| :: ops[k].Insert? && ops[k].entry == entry && DueOf(c, ops, k) > Ticks(ops)
  {
    if entry in (set p | p in CalendarAfter(c, ops) :: p.1) {
      var p :| p in CalendarAfter(c, ops) && p.1 == entry;
      CalendarIsTheFuture(c, ops, p.0, entry);
      var k :| 0 <= k < |ops| && InsertsAt(c, ops, k, p.0, entry);
    }
    forall k | 0 <= k < |ops| && ops[k].Insert? && ops[k].entry == entry && DueOf(c, ops, k) > Ticks(ops)
      ensures (DueOf(c, ops, k), entry) in CalendarAfter(c, ops)
    {
      assert InsertsAt(c, ops, k, DueOf(c, ops, k), entry);
      CalendarIsTheFuture(c, ops, DueOf(c, ops, k), entry);
    }
  }

  /** With the constructor's number of wheels every timeout up to the maximum is
      exact, except one of exactly B tick lengths when a single wheel was chosen. */
  lemma MaxTimeoutExactIff(c: Config, maxTimeout: nat, tick: nat, delay: nat)
    requires c.Valid() && delay <= maxTimeout
    requires Pow(c.b, c.w) >= maxTimeout / c.ticksInterval
    ensures
      var d := TickDistance(delay, c.ticksInterval);
      ReleaseTick(c.b, c.w, tick, d) == tick + d <==> c.w >= 2 || delay / c.ticksInterval < c.b
  {
    var d := TickDistance(delay, c.ticksInterval);
    DivMonotone(delay, maxTimeout, c.ticksInterval);
    if c.w >= 2 {
      AlwaysExactIff(c.b, c.w, d);
      assert Geometric(c.b, c.w - 1) >= Pow(c.b, c.w - 2) >= 1;
      assert ReleaseTick(c.b, c.w, tick, d) == tick + d;
    } else {
      assert Pow(c.b, 1) == c.b && Pow(c.b, 0) == 1;
      ExactReleaseIff(c.b, c.w, tick, d);
    }
  }

  /** In terms of the delay asked for: over every run an entry is never let go later than
      the tick by which its delay has just run out, and not before it has run out if and
      only if the insertion tick leaves room in the last wheel. */
  lemma TimeoutKeptIff(c: Config, ops: seq<Op>, k: nat)
    requires c.Valid() && Legal(c, ops) && k < |ops| && ops[k].Insert? && ops[k].delay >= 0
    ensures
      var delay, tick, waited := ops[k].delay, Ticks(ops[..k]), DueOf(c, ops, k) - Ticks(ops[..k]);
      && (waited - 1) * c.ticksInterval <= delay
      && (delay < waited * c.ticksInterval
          <==> tick % Pow(c.b, c.w - 1) + delay / c.ticksInterval + 1
               < Pow(c.b, c.w) + Pow(c.b, c.w - 1) + Geometric(c.b, c.w - 1))
  {
    ReleaseIsRight(c.b, c.w, Ticks(ops[..k]), ops[k].delay, c.ticksInterval);
  }

  /** The real wheels behave as the flat calendar over every run. */
  method Drive(wheel: TimerWheel, c: Config, ops: seq<Op>) returns (log: seq<set<EntryId>>)
    requires wheel.Valid() && wheel.tickCounter == 0 && wheel.Calendar() == {}
    requires c == Config(wheel.ticksInterval, wheel.bucketNum, |wheel.wheels|) && Legal(c, ops)
    modifies wheel
    ensures wheel.Valid() && wheel.tickCounter == Ticks(ops)
    ensures log == Log(c, ops)
    ensures wheel.Calendar() == CalendarAfter(c, ops)
    ensures Ids(wheel.wheels) == set p | p in CalendarAfter(c, ops) :: p.1
  {
    log := [];
    for k := 0 to |ops|
      invariant wheel.Valid() && c == Config(wheel.ticksInterval, wheel.bucketNum, |wheel.wheels|)
      invariant Legal(c, ops[..k]) && wheel.tickCounter == Ticks(ops[..k])
      invariant log == Log(c, ops[..k]) && wheel.Calendar() == CalendarAfter(c, ops[..k])
    {
      assert ops[..k + 1][..k] == ops[..k];
      match ops[k] {
        case Insert(delay, entry) =>
          wheel.InsertEntryInLoop(delay, entry);
        case Tick =>
          var dropped := wheel.OnTick();
          log := log + [dropped];
      }
    }
    assert ops[..|ops|] == ops;
    IdsOfPairs(wheel.bucketNum, wheel.wheels, ShiftCounts(wheel.bucketNum, wheel.tickCounter, |wheel.wheels|));
  }
}
