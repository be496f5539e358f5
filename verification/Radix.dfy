/** Mixed-radix arithmetic behind the timing wheel: powers of the bucket count,
    their geometric sum, and how floors of nested divisions compose. */
module Radix {

  function Pow(b: nat, e: nat): (p: nat)
    requires b >= 1
    ensures p >= 1
  {
    if e == 0 then 1 else b * Pow(b, e - 1)
  }

  lemma PowStep(b: nat, e: nat)
    requires b >= 1
    ensures Pow(b, e + 1) == Pow(b, e) * b
  {
  }

  /** 1 + b + ... + b^(e-1) */
  function Geometric(b: nat, e: nat): nat
    requires b >= 1
  {
    if e == 0 then 0 else Geometric(b, e - 1) + Pow(b, e - 1)
  }

  lemma MulMonotone(x: int, y: int, k: int)
    requires x <= y && k >= 0
    ensures x * k <= y * k
  {
  }

  /** Floor division is pinned down by its bracket. */
  lemma DivBracket(x: int, d: int, q: int)
    requires d > 0 && d * q <= x < d * q + d
    ensures x / d == q
  {
    var r := x / d;
    assert d * r <= x < d * r + d;
    if r < q {
      MulMonotone(r + 1, q, d);
    } else if r > q {
      MulMonotone(q + 1, r, d);
    }
  }

  lemma DivDiv(x: int, p: int, b: int)
    requires p > 0 && b > 0
    ensures p * b > 0
    ensures x / (p * b) == x / p / b
  {
    MulMonotone(1, p, b);
    var q := x / p;
    var s := q / b;
    MulMonotone(b * s, q, p);
    MulMonotone(q, b * s + b - 1, p);
    Distribute(p, b, s);
    DivBracket(x, p * b, s);
  }

  lemma Distribute(p: int, b: int, s: int)
    ensures b * s * p == p * b * s
    ensures (b * s + b - 1) * p == p * b * s + p * b - p
  {
  }

  /** Subtracting one unit before the outer division is subtracting p before both. */
  lemma DivShift(x: int, p: int)
    requires p > 0
    ensures (x - p) / p == x / p - 1
  {
    var q := x / p;
    assert p * (q - 1) == p * q - p;
    DivBracket(x - p, p, q - 1);
  }

  /** A counter step moves the quotient exactly when it reaches a multiple. */
  lemma CounterStep(t: nat, p: nat)
    requires p >= 1
    ensures (t + 1) % p == 0 ==> (t + 1) / p == t / p + 1
    ensures (t + 1) % p != 0 ==> (t + 1) / p == t / p
  {
    var q := (t + 1) / p;
    if (t + 1) % p == 0 {
      assert p * (q - 1) == p * q - p;
      DivBracket(t, p, q - 1);
    } else {
      DivBracket(t, p, q);
    }
  }

  lemma MultipleOfFactor(t: nat, p: nat, b: nat)
    requires p >= 1 && b >= 1 && p * b >= 1 && t % (p * b) == 0
    ensures t % p == 0 && t / p == b * (t / (p * b))
  {
    var k := t / (p * b);
    assert t == (p * b) * k == p * (b * k);
    DivBracket(t, p, b * k);
  }

  lemma DivMonotone(x: int, y: int, b: nat)
    requires b >= 1 && x <= y
    ensures x / b <= y / b
  {
    if x / b >= y / b + 1 {
      MulMonotone(y / b + 1, x / b, b);
    }
  }

  /** Adding a multiple of the divisor inside a floor. */
  lemma DivAddMultiple(t: int, u: int, b: nat)
    requires b >= 1
    ensures (b * t + u) / b == t + u / b
  {
    assert b * (t + u / b) == b * t + b * (u / b);
    DivBracket(b * t + u, b, t + u / b);
  }

  /** One level up: the distance between x and tick, counted in units of p, becomes
      the distance counted in units of p * b once a unit is taken off. */
  lemma LevelUp(x: int, tick: nat, p: nat, b: nat)
    requires p >= 1 && b >= 1
    ensures p * b >= 1 && tick / (p * b) == tick / p / b
    ensures (x - p) / (p * b) - tick / (p * b) == (x / p - tick / p + tick / p % b - 1) / b
  {
    DivDiv(tick, p, b);
    DivDiv(x - p, p, b);
    DivShift(x, p);
    var t := tick / p;
    DivAddMultiple(t / b, x / p - t + t % b - 1, b);
    assert b * (t / b) + t % b == t;
  }

  /** A floor distance is at most b exactly when the raw distance is below b + 1 units. */
  lemma DistanceFits(x: int, tick: nat, p: nat, b: nat)
    requires p >= 1
    ensures x / p - tick / p <= b <==> x - tick + tick % p < p * (b + 1)
  {
    var t, q := tick / p, x / p;
    assert tick == p * t + tick % p;
    assert p * q <= x < p * q + p;
    assert p * (t + b + 1) == p * t + p * (b + 1);
    if q - t <= b {
      MulMonotone(q + 1, t + b + 1, p);
    } else {
      MulMonotone(t + b + 1, q, p);
    }
  }

  /** Removing the units beyond b from x leaves more than b - 1 units past tick. */
  lemma CutToFit(x: int, tick: nat, p: nat, b: nat)
    requires p >= 1 && b >= 1 && x / p - tick / p > b
    ensures (x / p - tick / p - b) * p > 0
    ensures x - (x / p - tick / p - b) * p > tick + (b - 1) * p >= tick
  {
    var t, q := tick / p, x / p;
    assert (q - t - b) * p == p * q - p * t - p * b;
    assert (b - 1) * p == p * b - p;
    MulMonotone(1, q - t - b, p);
    MulMonotone(0, b - 1, p);
  }
}
