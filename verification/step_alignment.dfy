/** Range and step policy of a device command, over the reals. */
module StepAlignment {
  import opened Outcomes

  datatype Constraints = Constraints(minimum: Option<real>, maximum: Option<real>, step: Option<real>)

  datatype Verdict = Accepted | OutOfRange | OffStep

  /** What the constructor of a constraint set demands. */
  predicate Valid(c: Constraints) {
    && (c.step.Some? ==> 0.0 < c.step.value)
    && (c.minimum.Some? && c.maximum.Some? ==> c.minimum.value <= c.maximum.value)
  }

  function Abs(x: real): real { if x < 0.0 then -x else x }

  /** Rounding toward zero. */
  function Trunc(x: real): int { if 0.0 <= x then x.Floor else -((-x).Floor) }

  function Times(k: int, step: real): real { k as real * step }

  /** The remainder whose sign follows the dividend. */
  function Remainder(x: real, step: real): real
    requires 0.0 < step
  {
    x - Times(Trunc(x / step), step)
  }

  const EPSILON: real := 1.0 / 4503599627370496.0

  /** How far from the grid a value may lie. */
  function Tolerance(offset: real, step: real): real {
    var representation := EPSILON * Abs(offset) * 8.0;
    var base := step * 0.000000001;
    var candidate := if representation > base then representation else base;
    var maximum := step * 0.000001;
    if candidate < maximum then candidate else maximum
  }

  function Distance(offset: real, step: real): real
    requires 0.0 < step
  {
    var r := Abs(Remainder(offset, step));
    if r < Abs(step - r) then r else Abs(step - r)
  }

  function Origin(c: Constraints): real { if c.minimum.Some? then c.minimum.value else 0.0 }

  predicate InRange(c: Constraints, value: real) {
    (c.minimum.Some? ==> c.minimum.value <= value) && (c.maximum.Some? ==> value <= c.maximum.value)
  }

  function ValidateValue(c: Constraints, value: real): Verdict
    requires Valid(c)
  {
    if !InRange(c, value) then OutOfRange
    else if c.step.None? then Accepted
    else
      var offset := value - Origin(c);
      if Distance(offset, c.step.value) > Tolerance(offset, c.step.value) then OffStep else Accepted
  }

  /** The grid value number `k`. */
  function Grid(c: Constraints, k: int): real
    requires c.step.Some?
  {
    Origin(c) + Times(k, c.step.value)
  }

  /** The tolerance is never below a billionth and never above a millionth of the step; in between it grows with the magnitude,
      eight times the spacing of doubles at one for every unit away from the origin. */
  lemma ToleranceBands(offset: real, step: real)
    requires 0.0 < step
    ensures step / 1_000_000_000.0 <= Tolerance(offset, step) <= step / 1_000_000.0
    ensures var scaled := Abs(offset) / 562_949_953_421_312.0;
            && (step / 1_000_000_000.0 <= scaled <= step / 1_000_000.0 ==> Tolerance(offset, step) == scaled)
            && (scaled < step / 1_000_000_000.0 ==> Tolerance(offset, step) == step / 1_000_000_000.0)
            && (step / 1_000_000.0 < scaled ==> Tolerance(offset, step) == step / 1_000_000.0)
  {
    assert EPSILON * Abs(offset) * 8.0 == Abs(offset) / 562_949_953_421_312.0;
  }

  lemma NonNegative(x: real, y: real)
    requires 0.0 <= x && 0.0 < y
    ensures 0.0 <= x * y && (0.0 < x ==> 0.0 < x * y)
  {}

  lemma Expand(x: real, y: real, z: real)
    ensures (x + y) * z == x * z + y * z
  {}

  lemma Scale(x: real, y: real, step: real)
    requires x <= y && 0.0 < step
    ensures x * step <= y * step && (x < y ==> x * step < y * step)
  {
    NonNegative(y - x, step);
    Expand(x, y - x, step);
  }

  lemma NextMultiple(x: real, step: real)
    ensures (x + 1.0) * step == x * step + step
  {
    Expand(x, 1.0, step);
  }

  lemma FloorBounds(m: real, step: real)
    requires 0.0 < step
    ensures var q := Times((m / step).Floor, step); q <= m < q + step
  {
    var x := m / step;
    var q := x.Floor as real;
    assert x * step == m;
    assert q <= x < q + 1.0;
    Scale(q, x, step);
    Scale(x, q + 1.0, step);
    NextMultiple(q, step);
    assert x * step < (q + 1.0) * step;
    assert m < q * step + step;
  }

  function Least(x: real, y: real): real { if x < y then x else y }

  /** For magnitudes: the distance is a lower bound of every distance to a multiple, and is attained. */
  lemma NearestMultiple(m: real, step: real, k: int)
    requires 0.0 <= m && 0.0 < step
    ensures var q := (m / step).Floor; var r := m - Times(q, step);
            && 0.0 <= r < step
            && Least(r, step - r) <= Multiple(m, step, k)
            && Least(r, step - r) == Multiple(m, step, if r < step - r then q else q + 1)
  {
    hide Times;
    FloorBounds(m, step);
    var q := (m / step).Floor;
    Multiples(q, k, step);
    assert Times(k, step) <= Times(q, step) || Times(q, step) + step <= Times(k, step);
  }

  /** Distinct multiples lie at least one step apart. */
  lemma Multiples(j: int, k: int, step: real)
    requires 0.0 < step
    ensures Times(j + 1, step) == Times(j, step) + step
    ensures j < k ==> Times(j, step) + step <= Times(k, step)
    ensures k < j ==> Times(k, step) + step <= Times(j, step)
  {
    NextMultiple(j as real, step);
    NextMultiple(k as real, step);
    assert (j + 1) as real == j as real + 1.0;
    if j < k {
      Scale(j as real + 1.0, k as real, step);
    } else if k < j {
      Scale(k as real + 1.0, j as real, step);
    }
  }

  /** Truncation makes the remainder of a negative offset the mirror image of a positive one. */
  lemma RemainderOfMagnitude(offset: real, step: real)
    requires 0.0 < step
    ensures var m := Abs(offset); Abs(Remainder(offset, step)) == m - Times((m / step).Floor, step)
  {
    FloorBounds(Abs(offset), step);
    if offset < 0.0 {
      Quotients(offset, step);
      assert -(offset / step) == (-offset) / step;
    } else {
      Quotients(-offset, step);
    }
  }

  lemma Quotients(x: real, step: real)
    requires 0.0 < step && x <= 0.0
    ensures x / step <= 0.0 && (-x) / step == -(x / step)
  {
    assert (x / step) * step == x;
    assert ((-x) / step) * step == -x;
    assert ((-x) / step + x / step) * step == 0.0;
  }

  /** The computed distance is the distance to the nearest multiple of the step, for offsets of either sign. */
  lemma DistanceIsNearest(offset: real, step: real, k: int)
    requires 0.0 < step
    ensures Distance(offset, step) <= Multiple(offset, step, k)
    ensures exists n: int :: Multiple(offset, step, n) == Distance(offset, step)
  {
    hide Multiple, Distance;
    var m := Abs(offset);
    var sign := if offset < 0.0 then -1 else 1;
    var n := DistanceOfMagnitude(offset, step, sign * k);
    Mirror(offset, step, k);
    Mirror(offset, step, sign * n);
    assert sign * (sign * n) == n;
    assert Multiple(offset, step, sign * n) == Distance(offset, step);
  }

  lemma DistanceOfMagnitude(offset: real, step: real, k: int) returns (n: int)
    requires 0.0 < step
    ensures Distance(offset, step) <= Multiple(Abs(offset), step, k)
    ensures Distance(offset, step) == Multiple(Abs(offset), step, n)
  {
    hide Remainder, Multiple;
    var m := Abs(offset);
    RemainderOfMagnitude(offset, step);
    NearestMultiple(m, step, k);
    var q := (m / step).Floor;
    var r := m - Times(q, step);
    assert Abs(step - r) == step - r;
    n := if r < step - r then q else q + 1;
  }

  /** The distance from the offset to one multiple of the step. */
  function Multiple(offset: real, step: real, n: int): real { Abs(offset - Times(n, step)) }

  lemma Mirror(offset: real, step: real, k: int)
    ensures var sign := if offset < 0.0 then -1 else 1;
            Multiple(offset, step, k) == Multiple(Abs(offset), step, sign * k)
  {
    if offset < 0.0 { assert (-1 * k) as real * step == -(k as real * step); }
  }

  /** A value is out of range exactly when it lies below the minimum or above the maximum; the bounds themselves are in range. */
  lemma OutOfRangeIff(c: Constraints, value: real)
    requires Valid(c)
    ensures ValidateValue(c, value) == OutOfRange <==>
            (c.minimum.Some? && value < c.minimum.value) || (c.maximum.Some? && c.maximum.value < value)
  {
    hide Distance, Tolerance;
  }

  /** A value is accepted exactly when it is in range and within the tolerance of some grid value. */
  lemma AcceptedIffNearGrid(c: Constraints, value: real)
    requires Valid(c) && c.step.Some?
    ensures ValidateValue(c, value) == Accepted <==>
            InRange(c, value) && exists k: int :: NearGrid(c, value, k)
  {
    var offset, step := value - Origin(c), c.step.value;
    hide Distance, Tolerance, Multiple;
    if ValidateValue(c, value) == Accepted {
      DistanceIsNearest(offset, step, 0);
      var n :| Multiple(offset, step, n) == Distance(offset, step);
      assert NearGrid(c, value, n);
    }
    if k: int :| NearGrid(c, value, k) { DistanceIsNearest(offset, step, k); }
  }

  predicate NearGrid(c: Constraints, value: real, k: int)
    requires c.step.Some?
  {
    Multiple(value - Origin(c), c.step.value, k) <= Tolerance(value - Origin(c), c.step.value)
  }

  /** The tolerance is never more than a millionth of the step, so at most one grid value is that near. */
  lemma OneGridValue(c: Constraints, value: real, j: int, k: int)
    requires Valid(c) && c.step.Some? && NearGrid(c, value, j)
    requires Abs(value - Grid(c, k)) <= c.step.value * 0.000001
    ensures j == k
  {
    var step := c.step.value;
    assert Multiple(value - Origin(c), step, j) <= step * 0.000001;
    hide Times;
    Multiples(j, k, step);
  }

  /** Every exact grid value in range is accepted. */
  lemma GridAccepted(c: Constraints, k: int)
    requires Valid(c) && c.step.Some? && InRange(c, Grid(c, k))
    ensures ValidateValue(c, Grid(c, k)) == Accepted
  {
    var value, step := Grid(c, k), c.step.value;
    assert 0.0 <= Tolerance(value - Origin(c), step);
    hide Tolerance;
    assert NearGrid(c, value, k);
    AcceptedIffNearGrid(c, value);
  }
}
