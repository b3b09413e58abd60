/** The longest interval without a usable observation in any history series. */
module ObservationGaps {
  import opened Outcomes
  import opened Frames

  /** Subtraction that stops at zero. */
  function Sub(a: nat, b: nat): nat { if b <= a then a - b else 0 }

  function Max(a: nat, b: nat): nat { if a <= b then b else a }

  predicate Fits(ts: seq<nat>, s: Series) { |s.values| == |s.quality| == |ts| }

  predicate Aligned(h: Segment) { forall x | 0 <= x < |h.series| :: Fits(h.timestamps, h.series[x]) }

  predicate Usable(s: Series, i: nat)
    requires i < |s.values| && i < |s.quality|
  {
    s.quality[i] != Missing && !s.values[i].MissingValue?
  }

  /** The fold over the first `k` labels: the last usable label so far and the largest gap so far. */
  function Scan(ts: seq<nat>, s: Series, cadence: nat, k: nat): (nat, nat)
    requires ts != [] && Fits(ts, s) && k <= |ts|
  {
    if k == 0 then (Sub(ts[0], cadence), cadence)
    else
      var (previous, maximum) := Scan(ts, s, cadence, k - 1);
      if Usable(s, k - 1) then (ts[k - 1], Max(maximum, Sub(ts[k - 1], previous))) else (previous, maximum)
  }

  function SeriesGap(ts: seq<nat>, s: Series, cadence: nat): nat
    requires ts != [] && Fits(ts, s)
  {
    var (previous, maximum) := Scan(ts, s, cadence, |ts|);
    Max(maximum, Sub(ts[|ts| - 1], previous))
  }

  function FoldSeries(h: Segment, cadence: nat, k: nat): nat
    requires h.timestamps != [] && Aligned(h) && k <= |h.series|
  {
    if k == 0 then cadence else Max(FoldSeries(h, cadence, k - 1), SeriesGap(h.timestamps, h.series[k - 1], cadence))
  }

  function MaximumGap(h: Segment, cadence: nat): nat
    requires Aligned(h)
  {
    if h.timestamps == [] then cadence else FoldSeries(h, cadence, |h.series|)
  }

  // ---------- the specification ----------

  /** Label `i` of the grid, with the window start before the first label and the last label repeated after it. */
  function Label(ts: seq<nat>, cadence: nat, i: int): nat
    requires ts != [] && -1 <= i <= |ts|
  {
    if i == -1 then Sub(ts[0], cadence) else if i == |ts| then ts[|ts| - 1] else ts[i]
  }

  /** `i` and `j` are usable labels, or the sentinels at either end, with no usable label between them. */
  ghost predicate Neighbours(ts: seq<nat>, s: Series, i: int, j: int)
    requires Fits(ts, s)
  {
    && -1 <= i < j <= |ts|
    && (i == -1 || Usable(s, i))
    && (j == |ts| || Usable(s, j))
    && forall k | i < k < j :: !Usable(s, k)
  }

  function Apart(ts: seq<nat>, cadence: nat, i: int, j: int): nat
    requires ts != [] && -1 <= i <= |ts| && -1 <= j <= |ts|
  {
    Sub(Label(ts, cadence, j), Label(ts, cadence, i))
  }

  /** `g` is the cadence or the largest distance between neighbouring usable labels, whichever is larger. */
  ghost predicate IsMaximumGap(h: Segment, cadence: nat, g: nat)
    requires h.timestamps != [] && Aligned(h)
  {
    && cadence <= g
    && (forall x, i, j | 0 <= x < |h.series| && Neighbours(h.timestamps, h.series[x], i, j) ::
          Apart(h.timestamps, cadence, i, j) <= g)
    && (g == cadence || exists x, i, j :: 0 <= x < |h.series| && Neighbours(h.timestamps, h.series[x], i, j)
                                          && Apart(h.timestamps, cadence, i, j) == g)
  }

  /** The largest distance among the neighbours that end before label `k`. */
  ghost predicate Largest(ts: seq<nat>, s: Series, cadence: nat, k: int, g: nat)
    requires ts != [] && Fits(ts, s)
  {
    && cadence <= g
    && (forall i, j | j < k && Neighbours(ts, s, i, j) :: Apart(ts, cadence, i, j) <= g)
    && (g == cadence || exists i, j :: j < k && Neighbours(ts, s, i, j) && Apart(ts, cadence, i, j) == g)
  }

  /** `i` is the last usable label before `k`, or the window start. */
  ghost predicate LastUsable(ts: seq<nat>, s: Series, k: nat, i: int)
    requires Fits(ts, s) && k <= |ts|
  {
    -1 <= i < k && (i == -1 || Usable(s, i)) && forall j | i < j < k :: !Usable(s, j)
  }

  lemma {:induction false} ScanSpec(ts: seq<nat>, s: Series, cadence: nat, k: nat) returns (i: int)
    requires ts != [] && Fits(ts, s) && k <= |ts|
    ensures LastUsable(ts, s, k, i)
    ensures var (previous, maximum) := Scan(ts, s, cadence, k);
            previous == Label(ts, cadence, i) && Largest(ts, s, cadence, k, maximum)
    decreases k
  {
    hide Usable;
    if k == 0 {
      i := -1;
    } else {
      var before := ScanSpec(ts, s, cadence, k - 1);
      var maximum := Scan(ts, s, cadence, k - 1).1;
      if Usable(s, k - 1) {
        i := k - 1;
        Extend(ts, s, cadence, k - 1, before, maximum);
      } else {
        i := before;
      }
    }
  }

  /** The neighbours that end exactly at a usable label or at the end start at the last usable label. */
  lemma Extend(ts: seq<nat>, s: Series, cadence: nat, k: nat, last: int, maximum: nat)
    requires ts != [] && Fits(ts, s) && k <= |ts| && LastUsable(ts, s, k, last) && Largest(ts, s, cadence, k, maximum)
    requires k == |ts| || Usable(s, k)
    ensures Largest(ts, s, cadence, k + 1, Max(maximum, Apart(ts, cadence, last, k)))
  {
    hide Usable, Apart;
    assert Neighbours(ts, s, last, k);
    forall i, j | j < k + 1 && Neighbours(ts, s, i, j)
      ensures Apart(ts, cadence, i, j) <= Max(maximum, Apart(ts, cadence, last, k))
    {
      if j == k { assert i == last; }
    }
  }

  lemma SeriesGapSpec(ts: seq<nat>, s: Series, cadence: nat)
    requires ts != [] && Fits(ts, s)
    ensures Largest(ts, s, cadence, |ts| + 1, SeriesGap(ts, s, cadence))
  {
    hide Usable, Scan, Largest;
    var i := ScanSpec(ts, s, cadence, |ts|);
    Extend(ts, s, cadence, |ts|, i, Scan(ts, s, cadence, |ts|).1);
  }

  lemma {:induction false} FoldSpec(h: Segment, cadence: nat, k: nat)
    requires h.timestamps != [] && Aligned(h) && k <= |h.series|
    ensures IsMaximumGap(Segment(h.timestamps, h.series[..k]), cadence, FoldSeries(h, cadence, k))
    decreases k
  {
    var front := Segment(h.timestamps, h.series[..k]);
    if k != 0 {
      FoldSpec(h, cadence, k - 1);
      var before := Segment(h.timestamps, h.series[..k - 1]);
      assert before.series == front.series[..k - 1];
      SeriesGapSpec(h.timestamps, h.series[k - 1], cadence);
      AddSeries(front, cadence, FoldSeries(h, cadence, k - 1), SeriesGap(h.timestamps, h.series[k - 1], cadence));
    }
  }

  lemma AddSeries(h: Segment, cadence: nat, before: nat, last: nat)
    requires h.timestamps != [] && h.series != [] && Aligned(h)
    requires IsMaximumGap(Segment(h.timestamps, h.series[..|h.series| - 1]), cadence, before)
    requires Largest(h.timestamps, h.series[|h.series| - 1], cadence, |h.timestamps| + 1, last)
    ensures IsMaximumGap(h, cadence, Max(before, last))
  {
    hide Usable, Apart;
    var n := |h.series| - 1;
    var front := h.series[..n];
    var g := Max(before, last);
    forall x, i, j | 0 <= x < |h.series| && Neighbours(h.timestamps, h.series[x], i, j) ensures Apart(h.timestamps, cadence, i, j) <= g
    {
      if x < n { assert front[x] == h.series[x]; }
    }
    if g != cadence {
      if g == last {
        var i, j :| j < |h.timestamps| + 1 && Neighbours(h.timestamps, h.series[n], i, j) && Apart(h.timestamps, cadence, i, j) == last;
      } else {
        var x, i, j :| 0 <= x < |front| && Neighbours(h.timestamps, front[x], i, j) && Apart(h.timestamps, cadence, i, j) == before;
        assert Neighbours(h.timestamps, h.series[x], i, j);
      }
    }
  }

  /** The fold computes the largest distance between neighbouring usable labels of any series, with the window start and
      the last label as sentinels, and never less than the cadence. */
  lemma GapIsMaximum(h: Segment, cadence: nat)
    requires h.timestamps != [] && Aligned(h)
    ensures IsMaximumGap(h, cadence, MaximumGap(h, cadence))
  {
    FoldSpec(h, cadence, |h.series|);
    assert h.series[..|h.series|] == h.series;
  }

  lemma OneMaximum(h: Segment, cadence: nat, a: nat, b: nat)
    requires h.timestamps != [] && Aligned(h) && IsMaximumGap(h, cadence, a) && IsMaximumGap(h, cadence, b)
    ensures a == b
  {
    hide Neighbours, Apart;
  }

  // ---------- consequences ----------

  predicate SameSamples(s: Series, t: Series) { s.values == t.values && s.quality == t.quality }

  /** Some series of `b` has the samples of `s`. */
  ghost predicate Mirrored(s: Series, b: Segment) { exists y | 0 <= y < |b.series| :: SameSamples(s, b.series[y]) }

  /** Every series of `a` has a series with the same samples in `b`. */
  ghost predicate Mirrors(a: Segment, b: Segment) { forall x | 0 <= x < |a.series| :: Mirrored(a.series[x], b) }

  /** The gap depends only on the samples, not on the order, the names or the limits of the series. */
  lemma GapOfSamples(a: Segment, b: Segment, cadence: nat)
    requires a.timestamps == b.timestamps && a.timestamps != [] && Aligned(a) && Aligned(b)
    requires Mirrors(a, b) && Mirrors(b, a)
    ensures MaximumGap(a, cadence) == MaximumGap(b, cadence)
  {
    hide MaximumGap, Mirrors;
    NoLargerGap(a, b, cadence);
    NoLargerGap(b, a, cadence);
  }

  lemma NoLargerGap(a: Segment, b: Segment, cadence: nat)
    requires a.timestamps == b.timestamps && a.timestamps != [] && Aligned(a) && Aligned(b) && Mirrors(a, b)
    ensures MaximumGap(a, cadence) <= MaximumGap(b, cadence)
  {
    hide MaximumGap, Apart, Usable;
    GapIsMaximum(a, cadence);
    GapIsMaximum(b, cadence);
    var g := MaximumGap(a, cadence);
    if g != cadence {
      var x, i, j :| 0 <= x < |a.series| && Neighbours(a.timestamps, a.series[x], i, j) && Apart(a.timestamps, cadence, i, j) == g;
      assert Mirrored(a.series[x], b);
      var y :| 0 <= y < |b.series| && SameSamples(a.series[x], b.series[y]);
      SameNeighbours(a.timestamps, a.series[x], b.series[y], i, j);
    }
  }

  lemma SameNeighbours(ts: seq<nat>, s: Series, t: Series, i: int, j: int)
    requires Fits(ts, s) && Fits(ts, t) && s.values == t.values && s.quality == t.quality && Neighbours(ts, s, i, j)
    ensures Neighbours(ts, t, i, j)
  {
    assert forall k | 0 <= k < |ts| :: Usable(s, k) <==> Usable(t, k);
  }

  /** `t` is `s` with its last cell replaced by a usable one. */
  predicate TailReplaced(s: Series, t: Series) {
    && s.values != [] && |t.values| == |s.values| == |t.quality| == |s.quality|
    && t.values[..|s.values| - 1] == s.values[..|s.values| - 1] && t.quality[..|s.values| - 1] == s.quality[..|s.values| - 1]
    && Usable(t, |s.values| - 1)
  }

  lemma {:induction false} SamePrefixScan(ts: seq<nat>, s: Series, t: Series, cadence: nat, k: nat)
    requires ts != [] && Fits(ts, s) && Fits(ts, t) && k <= |ts|
    requires s.values[..k] == t.values[..k] && s.quality[..k] == t.quality[..k]
    ensures Scan(ts, s, cadence, k) == Scan(ts, t, cadence, k)
    decreases k
  {
    if k != 0 {
      assert s.values[..k - 1] == s.values[..k][..k - 1] && t.values[..k - 1] == t.values[..k][..k - 1];
      assert s.quality[..k - 1] == s.quality[..k][..k - 1] && t.quality[..k - 1] == t.quality[..k][..k - 1];
      SamePrefixScan(ts, s, t, cadence, k - 1);
      assert s.values[k - 1] == s.values[..k][k - 1] && t.values[k - 1] == t.values[..k][k - 1];
      assert s.quality[k - 1] == s.quality[..k][k - 1] && t.quality[k - 1] == t.quality[..k][k - 1];
    }
  }

  /** Completing the tail of a series leaves its gap exactly as it was. */
  lemma TailKeepsSeriesGap(ts: seq<nat>, s: Series, t: Series, cadence: nat)
    requires ts != [] && Fits(ts, s) && Fits(ts, t) && TailReplaced(s, t)
    ensures SeriesGap(ts, s, cadence) == SeriesGap(ts, t, cadence)
  {
    SamePrefixScan(ts, s, t, cadence, |ts| - 1);
  }

  lemma {:induction false} TailsKeepGap(a: Segment, b: Segment, cadence: nat, k: nat)
    requires a.timestamps == b.timestamps && a.timestamps != [] && Aligned(a) && Aligned(b) && k <= |a.series| == |b.series|
    requires forall x | 0 <= x < |a.series| :: a.series[x] == b.series[x] || TailReplaced(a.series[x], b.series[x])
    ensures FoldSeries(a, cadence, k) == FoldSeries(b, cadence, k)
    decreases k
  {
    hide TailReplaced, SeriesGap;
    if k != 0 {
      TailsKeepGap(a, b, cadence, k - 1);
      if a.series[k - 1] != b.series[k - 1] {
        TailKeepsSeriesGap(a.timestamps, a.series[k - 1], b.series[k - 1], cadence);
      }
    }
  }

  /** The gap never exceeds the last label and the cadence. */
  lemma GapBound(h: Segment, cadence: nat, limit: nat)
    requires h.timestamps != [] && Aligned(h) && cadence <= limit
    requires forall i | 0 <= i < |h.timestamps| :: h.timestamps[i] <= limit
    ensures MaximumGap(h, cadence) <= limit
  {
    GapIsMaximum(h, cadence);
    var g := MaximumGap(h, cadence);
    if g != cadence {
      var x, i, j :| 0 <= x < |h.series| && Neighbours(h.timestamps, h.series[x], i, j) && Apart(h.timestamps, cadence, i, j) == g;
      assert g <= Label(h.timestamps, cadence, j);
    }
  }

  /** On a grid of multiples the gap is a multiple too. */
  lemma GapMultiple(h: Segment, cadence: nat, unit: nat)
    requires 0 < unit && h.timestamps != [] && Aligned(h) && cadence % unit == 0
    requires forall i | 0 <= i < |h.timestamps| :: h.timestamps[i] % unit == 0
    ensures MaximumGap(h, cadence) % unit == 0
  {
    GapIsMaximum(h, cadence);
    var g := MaximumGap(h, cadence);
    if g != cadence {
      var x, i, j :| 0 <= x < |h.series| && Neighbours(h.timestamps, h.series[x], i, j) && Apart(h.timestamps, cadence, i, j) == g;
      hide Neighbours;
      DifferenceMultiple(h.timestamps[0], cadence, unit);
      DifferenceMultiple(Label(h.timestamps, cadence, j), Label(h.timestamps, cadence, i), unit);
    }
  }

  lemma DifferenceMultiple(a: nat, b: nat, unit: nat)
    requires 0 < unit && a % unit == 0 && b % unit == 0
    ensures Sub(a, b) % unit == 0
  {
    var p, q := a / unit, b / unit;
    assert a == unit * p && b == unit * q;
    if b <= a {
      assert a - b == unit * (p - q);
      MultipleOf(p - q, unit);
    }
  }

  lemma MultipleOf(k: int, unit: nat)
    requires 0 < unit
    ensures (unit * k) % unit == 0
  {
    Quotient(unit * k, k, unit);
  }

  lemma Quotient(n: int, k: int, unit: nat)
    requires 0 < unit && n == unit * k
    ensures n % unit == 0
  {
    var q, r := n / unit, n % unit;
    assert n == unit * q + r;
    assert unit * (k - q) == r;
    Outside(k - q, unit);
  }

  lemma Outside(x: int, unit: nat)
    ensures 1 <= x ==> unit <= unit * x
    ensures x <= -1 ==> unit * x <= 0 - unit
  {
    if 1 <= x { assert unit * x == unit + unit * (x - 1); }
    if x <= -1 { assert unit * x == unit * (x + 1) - unit; }
  }
}
