/** The timing wheel as the event loop drives it, one shared-state update at a time,
    proved against the flat calendar of WheelModel. */
module TimingWheel {
  import opened Radix
  import opened WheelModel

  class TimerWheel {
    const ticksInterval: nat
    const bucketNum: nat
    var wheels: seq<Wheel>
    var tickCounter: nat

    ghost predicate Valid()
      reads this
    {
      && ticksInterval >= 1 && bucketNum >= 2 && |wheels| >= 1
      && (forall i | 0 <= i < |wheels| :: |wheels[i]| == bucketNum)
      && ItemsOk(wheels)
    }

    /** What the wheels stand for: the pending (release tick, entry) pairs. */
    ghost function Calendar(): set<(nat, EntryId)>
      reads this
      requires Valid()
    {
      Pairs(bucketNum, Slots(wheels, ShiftCounts(bucketNum, tickCounter, |wheels|)))
    }

    /** Picks the least number of wheels whose span covers the longest timeout. */
    constructor (maxTimeout: nat, ticksInterval: nat, bucketNum: nat)
      requires maxTimeout > ticksInterval > 0 && bucketNum > 1
      ensures Valid() && this.ticksInterval == ticksInterval && this.bucketNum == bucketNum
      ensures tickCounter == 0 && Calendar() == {}
      ensures Pow(bucketNum, |wheels|) >= maxTimeout / ticksInterval
      ensures forall w: nat | 1 <= w < |wheels| :: Pow(bucketNum, w) < maxTimeout / ticksInterval
    {
      var maxBucketNum := maxTimeout / ticksInterval;
      var wheelsNum, span := 1, bucketNum;
      while maxBucketNum > span
        invariant wheelsNum >= 1 && span == Pow(bucketNum, wheelsNum) >= 1
        invariant forall w: nat | 1 <= w < wheelsNum :: Pow(bucketNum, w) < maxBucketNum
        decreases maxBucketNum - span
      {
        MulMonotone(2, bucketNum, span);
        wheelsNum := wheelsNum + 1;
        span := span * bucketNum;
      }
      this.ticksInterval := ticksInterval;
      this.bucketNum := bucketNum;
      this.wheels := seq(wheelsNum, _ => seq(bucketNum, _ => {}));
      this.tickCounter := 0;
    }

    /** Destroys the content of a bucket taken out of wheel `level`: user entries are
        let go, a wrapper re-inserts its content into the wheel below. */
    method DestroyBucket(level: nat, bucket: Bucket, ghost n: nat, ghost shifts: seq<nat>) returns (dropped: set<EntryId>)
      requires bucketNum >= 1 && level < |wheels| == |shifts| && ItemsOk(wheels)
      requires level > 0 ==> |wheels[level - 1]| == bucketNum && shifts[level - 1] == bucketNum * n
      requires forall x | x in bucket :: WellFormed(x, level)
      modifies this`wheels
      ensures |wheels| == |old(wheels)| && ItemsOk(wheels)
      ensures forall i | 0 <= i < |wheels| :: |wheels[i]| == |old(wheels)[i]|
      ensures level == 0 ==> wheels == old(wheels) && dropped == BucketIds(bucket)
      ensures level > 0 ==> dropped == {}
      ensures level > 0 ==>
        Slots(wheels, shifts) == Slots(old(wheels), shifts) + Cascaded(bucketNum, level, n, bucket)
    {
      hide Slots;
      dropped := {};
      var rest := bucket;
      while rest != {}
        invariant rest <= bucket
        invariant |wheels| == |old(wheels)| && ItemsOk(wheels)
        invariant forall i | 0 <= i < |wheels| :: |wheels[i]| == |old(wheels)[i]|
        invariant level == 0 ==> wheels == old(wheels) && dropped == BucketIds(bucket - rest)
        invariant level > 0 ==> dropped == {}
        invariant level > 0 ==>
          Slots(wheels, shifts) == Slots(old(wheels), shifts) + Cascaded(bucketNum, level, n, bucket - rest)
        decreases rest
      {
        var x :| x in rest;
        assert WellFormed(x, level);
        assert bucket - (rest - {x}) == (bucket - rest) + {x};
        match x {
          case Entry(id) =>
            dropped := dropped + {id};
          case Delay(i, index, t, inner) =>
            var p := (index + t % bucketNum - 1) % bucketNum;
            assert p == Landing(bucketNum, x);
            assert Cascaded(bucketNum, level, n, {}) == {};
            CascadeOne(bucketNum, level, n, bucket - rest, x);
            hide Cascaded;
            hide Landing;
            PutSlots(wheels, shifts, i, p, inner);
            wheels := Put(wheels, i, p, inner);
        }
        rest := rest - {x};
      }
      assert bucket - rest == bucket;
    }

    /** One period of the tick timer: shifts, from the finest wheel up, every wheel
        whose granularity divides the new tick. */
    method OnTick() returns (dropped: set<EntryId>)
      requires Valid()
      modifies this
      ensures Valid() && |wheels| == |old(wheels)| && tickCounter == old(tickCounter) + 1
      ensures dropped == set p | p in old(Calendar()) && p.0 == tickCounter :: p.1
      ensures Calendar() == set p | p in old(Calendar()) && p.0 != tickCounter
    {
      hide Slots;
      hide Pairs;
      hide Landing;
      hide Below;
      hide Due;
      dropped := {};
      ghost var due := set p | p in Calendar() && p.0 == tickCounter + 1 :: p.1;
      ghost var kept := set p | p in Calendar() && p.0 != tickCounter + 1;
      ghost var shifts := ShiftCounts(bucketNum, tickCounter, |wheels|);
      FirstShift(bucketNum, wheels, tickCounter);
      AlignStart(bucketNum, tickCounter, |wheels|);
      hide Aligned;
      hide ShiftCounts;
      tickCounter := tickCounter + 1;
      var pow: nat := 1;
      assert pow == Pow(bucketNum, 0);
      hide Pow;
      var i := 0;
      while i < |wheels|
        invariant Valid() && 0 <= i <= |wheels| == |old(wheels)| == |shifts| && tickCounter == old(tickCounter) + 1
        invariant pow == Pow(bucketNum, i)
        invariant Aligned(bucketNum, tickCounter, i, shifts)
        invariant i == 0 ==> wheels == old(wheels) && shifts == ShiftCounts(bucketNum, old(tickCounter), |wheels|)
        invariant i == 0 ==> dropped == {}
        invariant i > 0 ==> Pairs(bucketNum, Slots(wheels, shifts)) == kept
        invariant i > 0 ==> dropped == due
      {
        AlignStep(bucketNum, tickCounter, i, shifts);
        if tickCounter % pow == 0 {
          var gone := ShiftWheel(i, shifts);
          shifts := shifts[i := shifts[i] + 1];
          dropped := dropped + gone;
        }
        PowStep(bucketNum, i);
        pow := pow * bucketNum;
        i := i + 1;
      }
      AlignEnd(bucketNum, tickCounter, shifts);
    }

    /** pop_front and emplace_back on one wheel. The callbacks of the destroyed
        bucket touch only the wheel below. */
    method ShiftWheel(i: nat, ghost shifts: seq<nat>) returns (dropped: set<EntryId>)
      requires Valid() && i < |wheels| == |shifts|
      requires i > 0 ==> shifts[i - 1] == bucketNum * (shifts[i] + 1)
      modifies this`wheels
      ensures Valid() && |wheels| == |old(wheels)|
      ensures i == 0 ==> wheels == Shift(old(wheels), 0) && dropped == BucketIds(old(wheels)[0][0])
      ensures i > 0 ==> dropped == {}
      ensures i > 0 ==>
        Pairs(bucketNum, Slots(wheels, shifts[i := shifts[i] + 1])) == Pairs(bucketNum, Slots(old(wheels), shifts))
    {
      hide Slots;
      hide Landing;
      hide Below;
      hide Due;
      var front := wheels[i][0];
      ShiftSlots(wheels, shifts, i);
      wheels := Shift(wheels, i);
      dropped := DestroyBucket(i, front, shifts[i] + 1, shifts[i := shifts[i] + 1]);
      if i > 0 {
        CascadePairs(bucketNum, i, shifts[i] + 1, front);
        ghost var rest := Slots(Shift(old(wheels), i), shifts[i := shifts[i] + 1]);
        PairsUnion(bucketNum, rest, BucketSlots(i, shifts[i] + 1, front));
        PairsUnion(bucketNum, rest, Cascaded(bucketNum, i, shifts[i] + 1, front));
      }
    }

    /** Hands an entry to the wheels; it is let go `ReleaseTick` later, whatever happens in between. */
    method InsertEntryInLoop(delay: int, entry: EntryId)
      requires Valid() && delay + ticksInterval > 0
      modifies this`wheels
      ensures Valid() && |wheels| == |old(wheels)|
      ensures ReleaseTick(bucketNum, |wheels|, tickCounter, TickDistance(delay, ticksInterval)) >= 0
      ensures Calendar() == old(Calendar())
        + {(ReleaseTick(bucketNum, |wheels|, tickCounter, TickDistance(delay, ticksInterval)), entry)}
      ensures delay >= 0 ==> RightFor(bucketNum, |wheels|, tickCounter, delay, ticksInterval,
        ReleaseTick(bucketNum, |wheels|, tickCounter, TickDistance(delay, ticksInterval)))
    {
      if delay >= 0 { ReleaseIsRight(bucketNum, |wheels|, tickCounter, delay, ticksInterval); }
      hide RightFor;
      ghost var d := TickDistance(delay, ticksInterval);
      ReleaseTickBounds(bucketNum, |wheels|, tickCounter, d);
      var index: nat := (if delay >= 0 then delay / ticksInterval else -(-delay / ticksInterval)) + 1;
      var t: nat := tickCounter;
      var item := Entry(entry);
      InsertionStarts(bucketNum, tickCounter, d, entry);
      hide TickDistance;
      hide ReleaseTick;
      hide Inserting;
      hide WellFormed;
      hide ItemsOk;
      hide Due;
      hide Pairs;
      hide Slots;
      var i := 0;
      while i != |wheels|
        invariant 0 <= i <= |wheels| == |old(wheels)| && Valid()
        invariant i < |wheels| ==> wheels == old(wheels) && Inserting(bucketNum, i, tickCounter, d, t, index, item, entry)
        invariant i == |wheels| ==> Calendar() == old(Calendar()) + {(ReleaseTick(bucketNum, |wheels|, tickCounter, d), entry)}
      {
        InsertionEnds(bucketNum, |wheels|, i, tickCounter, d, t, index, item, entry);
        if index <= bucketNum {
          PlaceItem(i, index - 1, item, d, t, index, entry);
          break;
        }
        if i != |wheels| - 1 {
          InsertionStep(bucketNum, i, tickCounter, d, t, index, item, entry);
          item := Delay(i, index, t, item);
        } else {
          PlaceItem(i, bucketNum - 1, item, d, t, index, entry);
        }
        ghost var index', t' := NextIndex(bucketNum, t, index), NextTurn(bucketNum, t);
        index := (index + t % bucketNum - 1) / bucketNum;
        t := t / bucketNum;
        assert index == index' && t == t';
        i := i + 1;
      }
    }

    /** Inserts one item into one bucket. */
    method PlaceItem(i: nat, j: nat, item: Item, ghost d: nat, ghost t: nat, ghost index: nat, ghost entry: EntryId)
      requires Valid() && i < |wheels| && j < bucketNum && WellFormed(item, i)
      requires Inserting(bucketNum, i, tickCounter, d, t, index, item, entry)
      modifies this`wheels
      ensures Valid() && |wheels| == |old(wheels)|
      ensures Calendar() == old(Calendar()) + {(Due(bucketNum, i, t + j + 1, item), entry)}
    {
      hide Slots;
      hide Below;
      hide Landing;
      ghost var shifts := ShiftCounts(bucketNum, tickCounter, |wheels|);
      PutSlots(wheels, shifts, i, j, item);
      wheels := Put(wheels, i, j, item);
      PairsUnion(bucketNum, Slots(old(wheels), shifts), {Slot(i, shifts[i] + j + 1, item)});
    }

    /** The destructor: clears the wheels from the coarsest down, so that every
        cascade lands in a wheel that still has all its buckets. */
    method Clear() returns (dropped: set<EntryId>)
      requires Valid()
      modifies this`wheels
      ensures |wheels| == |old(wheels)| && forall i | 0 <= i < |wheels| :: wheels[i] == []
      ensures dropped == set p | p in old(Calendar()) :: p.1
    {
      IdsOfPairs(bucketNum, wheels, ShiftCounts(bucketNum, tickCounter, |wheels|));
      dropped := {};
      var i := |wheels|;
      while i > 0
        invariant 0 <= i <= |wheels| == |old(wheels)| && ItemsOk(wheels)
        invariant forall k | 0 <= k < i :: |wheels[k]| == bucketNum
        invariant forall k | i <= k < |wheels| :: wheels[k] == []
        invariant Ids(wheels) + dropped == Ids(old(wheels))
      {
        i := i - 1;
        var gone := ClearOne(i);
        dropped := dropped + gone;
      }
    }

    method ClearOne(i: nat) returns (dropped: set<EntryId>)
      requires i < |wheels| && ItemsOk(wheels) && bucketNum >= 1
      requires forall k | 0 <= k <= i :: |wheels[k]| == bucketNum
      requires forall k | i < k < |wheels| :: wheels[k] == []
      modifies this`wheels
      ensures |wheels| == |old(wheels)| && ItemsOk(wheels)
      ensures forall k | 0 <= k < i :: |wheels[k]| == bucketNum
      ensures forall k | i <= k < |wheels| :: wheels[k] == []
      ensures Ids(wheels) + dropped == Ids(old(wheels))
    {
      assert WheelIds([]) == {};
      hide Ids;
      hide WheelIds;
      hide BucketIds;
      hide Slots;
      var wheel := wheels[i];
      ClearWheel(wheels, i);
      wheels := wheels[i := []];
      dropped := {};
      assert wheel[0..] == wheel;
      ghost var zeros := seq(|wheels|, _ => 0 as nat);
      var j := 0;
      while j < |wheel|
        invariant 0 <= j <= |wheel| == bucketNum && |wheels| == |old(wheels)| && ItemsOk(wheels)
        invariant forall k | 0 <= k < i :: |wheels[k]| == bucketNum
        invariant forall k | i <= k < |wheels| :: |wheels[k]| == 0
        invariant Ids(wheels) + dropped + WheelIds(wheel[j..]) == Ids(old(wheels))
      {
        NextBucketIds(wheel, j);
        ghost var before := wheels;
        assert forall x | x in wheel[j] :: WellFormed(x, i);
        var gone := DestroyBucket(i, wheel[j], 0, zeros);
        if i > 0 {
          CascadeIds(bucketNum, before, wheels, i, 0, wheel[j], zeros);
        }
        dropped := dropped + gone;
        j := j + 1;
      }
      assert wheel[|wheel|..] == [];
    }
  }
}
