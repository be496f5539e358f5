/** The hierarchical timing wheel as data: buckets of entries, the wrappers that
    make an entry travel from a coarse wheel down to wheel 0, and the flat calendar
    (release tick, entry) that a collection of wheels stands for. */
module WheelModel {
  import opened Radix

  /** Identity of a shared entry (the address a shared pointer holds). */
  type EntryId = nat

  /** What a bucket holds: the user's entry, or a wrapper whose destruction puts
      `inner` back one wheel down, using the index and shift count captured at insertion. */
  datatype Item =
    | Entry(id: EntryId)
    | Delay(level: nat, index: nat, t: nat, inner: Item)

  type Bucket = set<Item>
  type Wheel = seq<Bucket>

  /** An item of wheel `level` is wrapped once for every wheel below it. */
  predicate WellFormed(item: Item, level: nat)
    decreases level
  {
    if level == 0 then item.Entry?
    else item.Delay? && item.level == level - 1 && item.index >= 1 && WellFormed(item.inner, level - 1)
  }

  /** Bucket of the wheel below in which a destroyed wrapper puts its content. */
  function Landing(b: nat, item: Item): (p: nat)
    requires b >= 1 && item.Delay? && item.index >= 1
    ensures p < b
  {
    (item.index + item.t % b - 1) % b
  }

  function Core(item: Item): EntryId {
    match item
    case Entry(id) => id
    case Delay(_, _, _, inner) => Core(inner)
  }

  /** Shift of the wheel below that drops bucket `p`, when that wheel has b * n shifts behind it. */
  function Below(b: nat, n: nat, p: nat): nat {
    b * n + p + 1
  }

  /** Tick at which the entry inside `item` leaves wheel 0, when wheel `level`
      drops the item at its n-th shift and every wrapper lands as computed. */
  function Due(b: nat, level: nat, n: nat, item: Item): nat
    requires b >= 1 && WellFormed(item, level)
    decreases level
  {
    if level == 0 then n else Due(b, level - 1, Below(b, n, Landing(b, item)), item.inner)
  }

  lemma {:induction false} DueLinear(b: nat, level: nat, n: nat, k: nat, item: Item)
    requires b >= 1 && WellFormed(item, level)
    ensures Due(b, level, n + k, item) == Due(b, level, n, item) + Pow(b, level) * k
    decreases level
  {
    if level > 0 {
      hide Landing;
      var p := Landing(b, item);
      BelowLinear(b, n, k, p, Pow(b, level - 1));
      DueLinear(b, level - 1, Below(b, n, p), b * k, item.inner);
    }
  }

  lemma BelowLinear(b: nat, n: nat, k: nat, p: nat, q: nat)
    ensures Below(b, n + k, p) == Below(b, n, p) + b * k
    ensures q * (b * k) == b * q * k
  {
  }

  /** Whatever wheel above 0 drops at its n-th shift is released strictly after that tick. */
  lemma {:induction false} DueAfterShift(b: nat, level: nat, n: nat, item: Item)
    requires b >= 1 && WellFormed(item, level)
    ensures Due(b, level, n, item) >= Pow(b, level) * n
    ensures level > 0 ==> Due(b, level, n, item) > Pow(b, level) * n
    decreases level
  {
    if level > 0 {
      var p := Landing(b, item) + 1;
      var m := Below(b, n, Landing(b, item));
      DueAfterShift(b, level - 1, m, item.inner);
      SplitProduct(Pow(b, level - 1), b, n, p);
    }
  }

  lemma SplitProduct(q: nat, b: nat, n: nat, p: nat)
    requires q >= 1 && p >= 1
    ensures q * (b * n + p) > b * q * n
  {
    assert q * (b * n + p) == q * (b * n) + q * p;
    assert q * (b * n) == b * q * n;
    MulMonotone(1, p, q);
  }

  // ---------------------------------------------------------------- calendar

  /** Every wheel holds only items of its own level. */
  ghost predicate ItemsOk(wheels: seq<Wheel>) {
    forall i, j, x | 0 <= i < |wheels| && 0 <= j < |wheels[i]| && x in wheels[i][j] :: WellFormed(x, i)
  }

  /** Number of times each wheel has shifted after `tick` ticks. */
  function ShiftCounts(b: nat, tick: nat, w: nat): (s: seq<nat>)
    requires b >= 1
    ensures |s| == w
  {
    seq(w, i requires 0 <= i < w => tick / Pow(b, i))
  }

  /** A stored item together with the shift of its wheel that will drop it. */
  datatype Slot = Slot(level: nat, n: nat, item: Item)

  ghost function Slots(wheels: seq<Wheel>, shifts: seq<nat>): (slots: set<Slot>)
    requires |shifts| == |wheels|
    ensures ItemsOk(wheels) ==> SlotsOk(slots)
  {
    set i, j, x | 0 <= i < |wheels| && 0 <= j < |wheels[i]| && x in wheels[i][j] :: Slot(i, shifts[i] + j + 1, x)
  }

  ghost function BucketSlots(level: nat, n: nat, bucket: Bucket): set<Slot> {
    set x | x in bucket :: Slot(level, n, x)
  }

  function PairOf(b: nat, s: Slot): (nat, EntryId)
    requires b >= 1 && WellFormed(s.item, s.level)
  {
    (Due(b, s.level, s.n, s.item), Core(s.item))
  }

  ghost predicate SlotsOk(slots: set<Slot>) {
    forall s | s in slots :: WellFormed(s.item, s.level)
  }

  /** The (release tick, entry) pairs a set of slots stands for. */
  ghost function Pairs(b: nat, slots: set<Slot>): set<(nat, EntryId)>
    requires b >= 1 && SlotsOk(slots)
  {
    set s | s in slots :: PairOf(b, s)
  }

  lemma PairsUnion(b: nat, s: set<Slot>, t: set<Slot>)
    requires b >= 1 && SlotsOk(s) && SlotsOk(t)
    ensures SlotsOk(s + t) && Pairs(b, s + t) == Pairs(b, s) + Pairs(b, t)
  {
  }

  function Put(wheels: seq<Wheel>, i: nat, j: nat, x: Item): seq<Wheel>
    requires i < |wheels| && j < |wheels[i]|
  {
    wheels[i := wheels[i][j := wheels[i][j] + {x}]]
  }

  function Shift(wheels: seq<Wheel>, i: nat): seq<Wheel>
    requires i < |wheels| && |wheels[i]| >= 1
  {
    wheels[i := wheels[i][1..] + [{}]]
  }

  lemma PutSlots(wheels: seq<Wheel>, shifts: seq<nat>, i: nat, j: nat, x: Item)
    requires |shifts| == |wheels| && i < |wheels| && j < |wheels[i]|
    ensures Slots(Put(wheels, i, j, x), shifts) == Slots(wheels, shifts) + {Slot(i, shifts[i] + j + 1, x)}
  {
    hide ItemsOk;
    var after := Put(wheels, i, j, x);
    forall s | s in Slots(wheels, shifts)
      ensures s in Slots(after, shifts)
    {
      var i', j', x' :| 0 <= i' < |wheels| && 0 <= j' < |wheels[i']| && x' in wheels[i'][j']
        && s == Slot(i', shifts[i'] + j' + 1, x');
      assert x' in after[i'][j'];
    }
    forall s | s in Slots(after, shifts)
      ensures s in Slots(wheels, shifts) || s == Slot(i, shifts[i] + j + 1, x)
    {
      var i', j', x' :| 0 <= i' < |after| && 0 <= j' < |after[i']| && x' in after[i'][j']
        && s == Slot(i', shifts[i'] + j' + 1, x');
      assert i' != i || j' != j || x' != x ==> x' in wheels[i'][j'];
    }
    assert x in after[i][j];
  }

  lemma ShiftSlots(wheels: seq<Wheel>, shifts: seq<nat>, i: nat)
    requires |shifts| == |wheels| && i < |wheels| && |wheels[i]| >= 1
    ensures Slots(wheels, shifts)
         == Slots(Shift(wheels, i), shifts[i := shifts[i] + 1]) + BucketSlots(i, shifts[i] + 1, wheels[i][0])
  {
    var after, shifts' := Shift(wheels, i), shifts[i := shifts[i] + 1];
    forall s | s in Slots(wheels, shifts)
      ensures s in Slots(after, shifts') + BucketSlots(i, shifts[i] + 1, wheels[i][0])
    {
      var i', j', x' :| 0 <= i' < |wheels| && 0 <= j' < |wheels[i']| && x' in wheels[i'][j']
        && s == Slot(i', shifts[i'] + j' + 1, x');
      if i' == i && j' > 0 {
        assert x' in after[i][j' - 1];
      } else if i' != i {
        assert x' in after[i'][j'];
      }
    }
    forall s | s in Slots(after, shifts')
      ensures s in Slots(wheels, shifts)
    {
      var i', j', x' :| 0 <= i' < |after| && 0 <= j' < |after[i']| && x' in after[i'][j']
        && s == Slot(i', shifts'[i'] + j' + 1, x');
      if i' == i {
        assert x' in wheels[i][j' + 1];
      } else {
        assert x' in wheels[i'][j'];
      }
    }
  }

  /** Where the contents of a bucket destroyed at the n-th shift of wheel `level` go. */
  ghost function Cascaded(b: nat, level: nat, n: nat, bucket: Bucket): set<Slot>
    requires b >= 1 && level >= 1
  {
    set x | x in bucket && WellFormed(x, level) :: CascadedSlot(b, level, n, x)
  }

  function CascadedSlot(b: nat, level: nat, n: nat, x: Item): (s: Slot)
    requires b >= 1 && level >= 1 && WellFormed(x, level)
    ensures WellFormed(s.item, s.level)
  {
    Slot(level - 1, Below(b, n, Landing(b, x)), x.inner)
  }

  lemma CascadeOne(b: nat, level: nat, n: nat, done: Bucket, x: Item)
    requires b >= 1 && level >= 1 && WellFormed(x, level)
    ensures Cascaded(b, level, n, done + {x})
         == Cascaded(b, level, n, done) + {Slot(level - 1, b * n + Landing(b, x) + 1, x.inner)}
  {
    assert CascadedSlot(b, level, n, x) == Slot(level - 1, b * n + Landing(b, x) + 1, x.inner);
  }

  lemma CascadeKeepsDue(b: nat, level: nat, n: nat, x: Item)
    requires b >= 1 && level >= 1 && WellFormed(x, level)
    ensures PairOf(b, CascadedSlot(b, level, n, x)) == PairOf(b, Slot(level, n, x))
  {
    hide Landing;
    hide Below;
    var m, inner := Below(b, n, Landing(b, x)), x.inner;
    assert Core(x) == Core(inner);
    assert Due(b, level, n, x) == Due(b, level - 1, m, inner);
  }

  /** A cascade keeps the calendar: the wheel below has just shifted for the
      b * n-th time, so the landing position is still ahead of it. */
  lemma CascadePairs(b: nat, level: nat, n: nat, bucket: Bucket)
    requires b >= 1 && level >= 1 && forall x | x in bucket :: WellFormed(x, level)
    ensures SlotsOk(Cascaded(b, level, n, bucket)) && SlotsOk(BucketSlots(level, n, bucket))
    ensures Pairs(b, Cascaded(b, level, n, bucket)) == Pairs(b, BucketSlots(level, n, bucket))
  {
    var below, above := Cascaded(b, level, n, bucket), BucketSlots(level, n, bucket);
    forall x | x in bucket
      ensures CascadedSlot(b, level, n, x) in below && Slot(level, n, x) in above
      ensures PairOf(b, CascadedSlot(b, level, n, x)) == PairOf(b, Slot(level, n, x))
    {
      CascadeKeepsDue(b, level, n, x);
    }
  }

  /** Between two ticks nothing stored is already due, and only what lies in the
      front bucket of wheel 0 is due at the next tick. */
  lemma NothingOverdue(b: nat, wheels: seq<Wheel>, tick: nat, s: Slot)
    requires b >= 1
    requires s in Slots(wheels, ShiftCounts(b, tick, |wheels|)) && WellFormed(s.item, s.level)
    ensures Due(b, s.level, s.n, s.item) > tick
    ensures Due(b, s.level, s.n, s.item) == tick + 1 ==>
      s.level == 0 && |wheels| > 0 && |wheels[0]| > 0 && s.item in wheels[0][0]
  {
    var shifts := ShiftCounts(b, tick, |wheels|);
    var i, j, x :| 0 <= i < |wheels| && 0 <= j < |wheels[i]| && x in wheels[i][j]
      && s == Slot(i, shifts[i] + j + 1, x);
    DueAfterShift(b, i, s.n, x);
    NextMultiple(tick, Pow(b, i), s.n);
  }

  lemma NextMultiple(tick: nat, q: nat, n: nat)
    requires q >= 1 && n > tick / q
    ensures q * n > tick
  {
    MulMonotone(tick / q + 1, n, q);
  }

  /** Entries the wheels still reference, directly or through wrappers. */
  ghost function Ids(wheels: seq<Wheel>): set<EntryId> {
    set i, j, x | 0 <= i < |wheels| && 0 <= j < |wheels[i]| && x in wheels[i][j] :: Core(x)
  }

  ghost function WheelIds(wheel: Wheel): set<EntryId> {
    set j, x | 0 <= j < |wheel| && x in wheel[j] :: Core(x)
  }

  ghost function BucketIds(bucket: Bucket): set<EntryId> {
    set x | x in bucket :: Core(x)
  }

  lemma IdsOfSlots(wheels: seq<Wheel>, shifts: seq<nat>)
    requires |shifts| == |wheels|
    ensures Ids(wheels) == set s | s in Slots(wheels, shifts) :: Core(s.item)
  {
    forall i, j, x | 0 <= i < |wheels| && 0 <= j < |wheels[i]| && x in wheels[i][j]
      ensures Slot(i, shifts[i] + j + 1, x) in Slots(wheels, shifts)
    {
    }
    forall id | id in Ids(wheels) ensures id in set s | s in Slots(wheels, shifts) :: Core(s.item) {
      var i, j, x :| 0 <= i < |wheels| && 0 <= j < |wheels[i]| && x in wheels[i][j] && id == Core(x);
      assert Slot(i, shifts[i] + j + 1, x) in Slots(wheels, shifts);
    }
  }

  lemma CascadeIds(b: nat, before: seq<Wheel>, after: seq<Wheel>, level: nat, n: nat, bucket: Bucket, shifts: seq<nat>)
    requires b >= 1 && level >= 1 && |before| == |after| == |shifts|
    requires forall x | x in bucket :: WellFormed(x, level)
    requires Slots(after, shifts) == Slots(before, shifts) + Cascaded(b, level, n, bucket)
    ensures Ids(after) == Ids(before) + BucketIds(bucket)
  {
    hide Slots;
    hide Landing;
    hide Below;
    IdsOfSlots(before, shifts);
    IdsOfSlots(after, shifts);
    forall x | x in bucket
      ensures CascadedSlot(b, level, n, x) in Slots(after, shifts) && Core(x) == Core(CascadedSlot(b, level, n, x).item)
    {
    }
  }

  lemma IdsOfPairs(b: nat, wheels: seq<Wheel>, shifts: seq<nat>)
    requires b >= 1 && ItemsOk(wheels) && |shifts| == |wheels|
    ensures Ids(wheels) == set p | p in Pairs(b, Slots(wheels, shifts)) :: p.1
  {
    IdsOfSlots(wheels, shifts);
    hide Slots;
    var slots := Slots(wheels, shifts);
    forall s | s in slots ensures PairOf(b, s) in Pairs(b, slots) && PairOf(b, s).1 == Core(s.item) {
    }
  }

  lemma ClearWheel(wheels: seq<Wheel>, i: nat)
    requires i < |wheels|
    ensures Ids(wheels) == Ids(wheels[i := []]) + WheelIds(wheels[i])
  {
    var after := wheels[i := []];
    forall id | id in Ids(wheels) ensures id in Ids(after) + WheelIds(wheels[i]) {
      var i', j', x :| 0 <= i' < |wheels| && 0 <= j' < |wheels[i']| && x in wheels[i'][j'] && id == Core(x);
      if i' != i {
        assert x in after[i'][j'];
      }
    }
    forall id | id in Ids(after) ensures id in Ids(wheels) {
      var i', j', x :| 0 <= i' < |after| && 0 <= j' < |after[i']| && x in after[i'][j'] && id == Core(x);
      assert x in wheels[i'][j'];
    }
  }

  lemma NextBucketIds(wheel: Wheel, j: nat)
    requires j < |wheel|
    ensures WheelIds(wheel[j..]) == BucketIds(wheel[j]) + WheelIds(wheel[j + 1..])
  {
    forall id | id in WheelIds(wheel[j..]) ensures id in BucketIds(wheel[j]) + WheelIds(wheel[j + 1..]) {
      var k, x :| 0 <= k < |wheel[j..]| && x in wheel[j..][k] && id == Core(x);
      if k > 0 {
        assert x in wheel[j + 1..][k - 1];
      }
    }
    forall id | id in BucketIds(wheel[j]) + WheelIds(wheel[j + 1..]) ensures id in WheelIds(wheel[j..]) {
      if id in BucketIds(wheel[j]) {
        var x :| x in wheel[j] && id == Core(x);
        assert x in wheel[j..][0];
      } else {
        var k, x :| 0 <= k < |wheel[j + 1..]| && x in wheel[j + 1..][k] && id == Core(x);
        assert x in wheel[j..][k + 1];
      }
    }
  }

  /** In the middle of a tick the wheels below `i` have shifted for it, the others not yet. */
  ghost predicate Aligned(b: nat, tick: nat, i: nat, shifts: seq<nat>)
    requires b >= 1 && tick >= 1
  {
    forall k | 0 <= k < |shifts| :: shifts[k] == (if k < i then tick else tick - 1) / Pow(b, k)
  }

  /** A wheel is shifted exactly when its granularity divides the tick, and then
      the wheel below has just completed a whole turn. */
  lemma AlignStep(b: nat, tick: nat, i: nat, shifts: seq<nat>)
    requires b >= 1 && tick >= 1 && i < |shifts| && Aligned(b, tick, i, shifts)
    ensures tick % Pow(b, i) == 0 ==>
      && Aligned(b, tick, i + 1, shifts[i := shifts[i] + 1])
      && (i > 0 ==> shifts[i - 1] == b * (shifts[i] + 1))
    ensures tick % Pow(b, i) != 0 ==> Aligned(b, tick, i + 1, shifts)
  {
    CounterStep(tick - 1, Pow(b, i));
    if i > 0 && tick % Pow(b, i) == 0 {
      MultipleOfFactor(tick, Pow(b, i - 1), b);
    }
  }

  lemma AlignStart(b: nat, tick: nat, w: nat)
    requires b >= 1
    ensures Aligned(b, tick + 1, 0, ShiftCounts(b, tick, w))
  {
  }

  lemma AlignEnd(b: nat, tick: nat, shifts: seq<nat>)
    requires b >= 1 && tick >= 1 && Aligned(b, tick, |shifts|, shifts)
    ensures shifts == ShiftCounts(b, tick, |shifts|)
  {
  }

  /** Shifting wheel 0 lets go exactly the entries due at this tick. */
  lemma FirstShift(b: nat, wheels: seq<Wheel>, tick: nat)
    requires b >= 1 && ItemsOk(wheels) && |wheels| > 0 && |wheels[0]| >= 1
    ensures ItemsOk(Shift(wheels, 0))
    ensures
      var shifts := ShiftCounts(b, tick, |wheels|);
      var before := Pairs(b, Slots(wheels, shifts));
      && BucketIds(wheels[0][0]) == (set p | p in before && p.0 == tick + 1 :: p.1)
      && Pairs(b, Slots(Shift(wheels, 0), shifts[0 := shifts[0] + 1])) == set p | p in before && p.0 != tick + 1
  {
    var shifts := ShiftCounts(b, tick, |wheels|);
    var slots := Slots(wheels, shifts);
    var after := Slots(Shift(wheels, 0), shifts[0 := shifts[0] + 1]);
    ShiftSlots(wheels, shifts, 0);
    assert shifts[0] == tick;
    forall s | s in slots
      ensures PairOf(b, s).0 == tick + 1 <==> s in BucketSlots(0, tick + 1, wheels[0][0])
      ensures PairOf(b, s).0 == tick + 1 <==> s !in after
    {
      NothingOverdue(b, wheels, tick, s);
      hide Below;
    }
    forall x | x in wheels[0][0]
      ensures Slot(0, tick + 1, x) in slots && PairOf(b, Slot(0, tick + 1, x)) == (tick + 1, Core(x))
    {
      assert Slot(0, tick + 1, x) in BucketSlots(0, tick + 1, wheels[0][0]);
    }
  }

  // ---------------------------------------------------------------- release tick

  /** Ticks between insertion and release: the truncated quotient plus one. */
  function TickDistance(delay: int, ticksInterval: nat): (d: nat)
    requires ticksInterval >= 1 && delay + ticksInterval > 0
    ensures d >= 1
  {
    if delay >= 0 then delay / ticksInterval + 1 else 1
  }

  /** What the distance means: the delay has run out at the d-th tick from now and not a
      whole tick length before; a negative delay waits for the next tick. */
  lemma DistanceMeans(delay: int, ticksInterval: nat)
    requires ticksInterval >= 1 && delay + ticksInterval > 0
    ensures
      var d := TickDistance(delay, ticksInterval);
      && (delay >= 0 ==> (d - 1) * ticksInterval <= delay < d * ticksInterval)
      && (delay < 0 ==> d == 1)
  {
    if delay >= 0 {
      var q := delay / ticksInterval;
      assert delay == q * ticksInterval + delay % ticksInterval;
      assert (q + 1) * ticksInterval == q * ticksInterval + ticksInterval;
    }
  }

  /** Index the insertion reaches at wheel `i`, in closed form. */
  function LevelIndex(b: nat, i: nat, tick: nat, d: nat): int
    requires b >= 1
  {
    (tick + d - Geometric(b, i)) / Pow(b, i) - tick / Pow(b, i)
  }

  /** Tick at which an entry inserted after `tick` ticks with distance d leaves the
      wheels: tick + d, brought forward by whole turns of the last wheel's
      granularity when its index does not fit the last wheel. */
  function ReleaseTick(b: nat, w: nat, tick: nat, d: nat): int
    requires b >= 1 && w >= 1
  {
    var last := LevelIndex(b, w - 1, tick, d);
    if last <= b then tick + d else tick + d - (last - b) * Pow(b, w - 1)
  }

  /** One step of the insertion loop is one step of the closed form. */
  lemma LevelIndexStep(b: nat, i: nat, tick: nat, d: nat)
    requires b >= 1
    ensures tick / Pow(b, i + 1) == tick / Pow(b, i) / b
    ensures LevelIndex(b, i + 1, tick, d) == (LevelIndex(b, i, tick, d) + tick / Pow(b, i) % b - 1) / b
  {
    var p := Pow(b, i);
    assert Pow(b, i + 1) == p * b;
    assert Geometric(b, i + 1) == Geometric(b, i) + p;
    LevelUp(tick + d - Geometric(b, i), tick, p, b);
  }

  /** Once the index fits a wheel it fits every wheel above. */
  lemma {:induction false} LevelIndexFits(b: nat, i: nat, k: nat, tick: nat, d: nat)
    requires b >= 2 && i <= k && LevelIndex(b, i, tick, d) <= b
    ensures LevelIndex(b, k, tick, d) <= b
    decreases k - i
  {
    if i < k {
      LevelIndexStep(b, i, tick, d);
      DivMonotone(LevelIndex(b, i, tick, d) + tick / Pow(b, i) % b - 1, 2 * b - 1, b);
      DivAddMultiple(1, b - 1, b);
      LevelIndexFits(b, i + 1, k, tick, d);
    }
  }

  /** Where the index does not fit the last wheel either, its last bucket is dropped
      at the release tick. */
  lemma ClampedDue(b: nat, w: nat, tick: nat, d: nat, t: nat, index: nat, item: Item)
    requires b >= 2 && w >= 1 && WellFormed(item, w - 1)
    requires index == LevelIndex(b, w - 1, tick, d) > b
    requires Due(b, w - 1, t + index, item) == tick + d
    ensures Due(b, w - 1, t + b, item) == ReleaseTick(b, w, tick, d)
  {
    hide LevelIndex;
    hide Below;
    hide Landing;
    hide Pow;
    DueLinear(b, w - 1, t + b, index - b, item);
    hide Due;
    assert Pow(b, w - 1) * (index - b) == (index - b) * Pow(b, w - 1);
  }

  /** Exactness: the release tick is the insertion tick plus the distance exactly
      when the position inside the last wheel's current bucket leaves room for it. */
  lemma ExactReleaseIff(b: nat, w: nat, tick: nat, d: nat)
    requires b >= 2 && w >= 1
    ensures ReleaseTick(b, w, tick, d) == tick + d
       <==> tick % Pow(b, w - 1) + d < Pow(b, w) + Pow(b, w - 1) + Geometric(b, w - 1)
  {
    var p := Pow(b, w - 1);
    var x := tick + d - Geometric(b, w - 1);
    DistanceFits(x, tick, p, b);
    assert p * (b + 1) == Pow(b, w) + p;
    if LevelIndex(b, w - 1, tick, d) > b {
      CutToFit(x, tick, p, b);
    }
  }

  lemma LastTickOfTurn(p: nat)
    requires p >= 1
    ensures (p - 1) % p == p - 1
  {
  }

  /** The longest distance that is exact whatever the insertion tick is B^w plus
      the geometric sum below the last wheel. */
  lemma AlwaysExactIff(b: nat, w: nat, d: nat)
    requires b >= 2 && w >= 1
    ensures (forall tick: nat :: ReleaseTick(b, w, tick, d) == tick + d)
       <==> d <= Pow(b, w) + Geometric(b, w - 1)
  {
    if d <= Pow(b, w) + Geometric(b, w - 1) {
      forall tick: nat ensures ReleaseTick(b, w, tick, d) == tick + d {
        ExactReleaseIff(b, w, tick, d);
        hide ReleaseTick;
        hide Pow;
      }
    } else {
      var tick: nat := Pow(b, w - 1) - 1;
      ExactReleaseIff(b, w, tick, d);
      LastTickOfTurn(Pow(b, w - 1));
      hide ReleaseTick;
      hide Pow;
      hide Geometric;
      assert ReleaseTick(b, w, tick, d) != tick + d;
    }
  }

  /** Never late, never in the past; an overlong delay is cut by whole buckets of
      the last wheel and still waits longer than all but one of them. */
  lemma ReleaseTickBounds(b: nat, w: nat, tick: nat, d: nat)
    requires b >= 2 && w >= 1 && d >= 1
    ensures tick < ReleaseTick(b, w, tick, d) <= tick + d
    ensures ReleaseTick(b, w, tick, d) != tick + d ==>
      ReleaseTick(b, w, tick, d) > tick + (b - 1) * Pow(b, w - 1)
  {
    if LevelIndex(b, w - 1, tick, d) > b {
      CutToFit(tick + d - Geometric(b, w - 1), tick, Pow(b, w - 1), b);
    }
  }

  /** The release tick r is right for the delay: it has run out by then, or would have run
      out before the next tick (never late), and it has run out (not early) if and only if
      the insertion tick leaves room for it in the last wheel. */
  ghost predicate RightFor(b: nat, w: nat, tick: nat, delay: nat, ticksInterval: nat, r: int)
    requires b >= 1 && w >= 1 && ticksInterval >= 1
  {
    && (r - tick - 1) * ticksInterval <= delay
    && (delay < (r - tick) * ticksInterval
        <==> tick % Pow(b, w - 1) + delay / ticksInterval + 1 < Pow(b, w) + Pow(b, w - 1) + Geometric(b, w - 1))
  }

  lemma ReleaseIsRight(b: nat, w: nat, tick: nat, delay: nat, ticksInterval: nat)
    requires b >= 2 && w >= 1 && ticksInterval >= 1
    ensures RightFor(b, w, tick, delay, ticksInterval, ReleaseTick(b, w, tick, TickDistance(delay, ticksInterval)))
  {
    var d := TickDistance(delay, ticksInterval);
    var r := ReleaseTick(b, w, tick, d);
    DistanceMeans(delay, ticksInterval);
    ReleaseTickBounds(b, w, tick, d);
    ExactReleaseIff(b, w, tick, d);
    hide ReleaseTick, Pow, Geometric;
    MulMonotone(r - tick - 1, d - 1, ticksInterval);
    if r - tick < d {
      MulMonotone(r - tick, d - 1, ticksInterval);
    }
  }

  /** Wrapping an item for the wheel above keeps the tick it is due at. */
  lemma WrapKeepsDue(b: nat, level: nat, t: nat, index: nat, item: Item)
    requires b >= 2 && index > b && WellFormed(item, level)
    ensures (index + t % b - 1) / b >= 1
    ensures Due(b, level + 1, t / b + (index + t % b - 1) / b, Delay(level, index, t, item)) == Due(b, level, t + index, item)
  {
    var u := index + t % b - 1;
    DivMonotone(b, u, b);
    assert b * (u / b) + u % b == u && b * (t / b) + t % b == t;
    assert b * (t / b + u / b) == b * (t / b) + b * (u / b);
    assert Below(b, t / b + u / b, u % b) == t + index;
    hide Below;
  }

  /** What the insertion loop keeps: `index` is the closed form at wheel i, `t` the
      shifts that wheel has made, and the wrapped item is still due at tick + d. */
  ghost predicate Inserting(b: nat, i: nat, tick: nat, d: nat, t: nat, index: nat, item: Item, id: EntryId)
    requires b >= 1
  {
    && WellFormed(item, i) && Core(item) == id
    && t == tick / Pow(b, i)
    && index == LevelIndex(b, i, tick, d) >= 1
    && Due(b, i, t + index, item) == tick + d
  }

  /** The index one wheel up, and the shifts that wheel has made. */
  function NextIndex(b: nat, t: nat, index: nat): nat
    requires b >= 1 && index >= 1
  {
    DivMonotone(0, index + t % b - 1, b);
    (index + t % b - 1) / b
  }

  function NextTurn(b: nat, t: nat): nat
    requires b >= 1
  {
    DivMonotone(0, t, b);
    t / b
  }

  lemma InsertionStarts(b: nat, tick: nat, d: nat, id: EntryId)
    requires b >= 1 && d >= 1
    ensures Inserting(b, 0, tick, d, tick, d, Entry(id), id)
  {
  }

  lemma InsertionStep(b: nat, i: nat, tick: nat, d: nat, t: nat, index: nat, item: Item, id: EntryId)
    requires b >= 2 && index > b && Inserting(b, i, tick, d, t, index, item, id)
    ensures Inserting(b, i + 1, tick, d, NextTurn(b, t), NextIndex(b, t, index), Delay(i, index, t, item), id)
  {
    LevelIndexStep(b, i, tick, d);
    WrapKeepsDue(b, i, t, index, item);
  }

  /** Wherever the loop stops, the bucket it picks is dropped at the release tick. */
  lemma InsertionEnds(b: nat, w: nat, i: nat, tick: nat, d: nat, t: nat, index: nat, item: Item, id: EntryId)
    requires b >= 2 && i < w && Inserting(b, i, tick, d, t, index, item, id)
    ensures WellFormed(item, i) && index >= 1
    ensures index <= b ==> ReleaseTick(b, w, tick, d) == Due(b, i, t + index, item)
    ensures index > b && i == w - 1 ==> ReleaseTick(b, w, tick, d) == Due(b, i, t + b, item)
  {
    hide Due;
    hide LevelIndex;
    hide Pow;
    if index <= b {
      LevelIndexFits(b, i, w - 1, tick, d);
    } else if i == w - 1 {
      ClampedDue(b, w, tick, d, t, index, item);
    }
  }
}
