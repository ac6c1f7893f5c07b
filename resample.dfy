/**
 * Steps 2 to 5 of `kwh2kw` (src/lib/utils.ts): align a grid of `stepSec`-multiples inside the
 * span of the working array, interpolate the energy at each grid point with a cursor that only
 * moves forward, and turn the backward differences into kW stamped with each interval's right end.
 */
module Resample {
  import opened Readings

  /** The default `stepSec` of `kwh2kw`: 15 minutes. */
  const DefaultStepSec: int := 15 * 60

  /** `Math.floor(a / b)` for a positive divisor. */
  function FloorDiv(a: int, b: int): (q: int)
    requires b > 0
    ensures q * b <= a < q * b + b
  {
    a / b
  }

  /** `Math.ceil(a / b)` for a positive divisor. */
  function CeilDiv(a: int, b: int): (q: int)
    requires b > 0
    ensures q * b - b < a <= q * b
  {
    -((-a) / b)
  }

  /** `Math.ceil(firstTs / stepSec) * stepSec`. */
  function GridStart(firstTs: int, stepSec: int): int
    requires stepSec > 0
  {
    CeilDiv(firstTs, stepSec) * stepSec
  }

  /** `Math.floor(lastTs / stepSec) * stepSec`. */
  function GridEnd(lastTs: int, stepSec: int): int
    requires stepSec > 0
  {
    FloorDiv(lastTs, stepSec) * stepSec
  }

  /** Both grid ends are multiples of the step, the start is the first one at or after `firstTs`, the end the last one at or before `lastTs`. */
  lemma GridBounds(firstTs: int, lastTs: int, stepSec: int)
    requires stepSec > 0
    ensures GridStart(firstTs, stepSec) % stepSec == 0
    ensures firstTs <= GridStart(firstTs, stepSec) < firstTs + stepSec
    ensures GridEnd(lastTs, stepSec) % stepSec == 0
    ensures GridEnd(lastTs, stepSec) <= lastTs < GridEnd(lastTs, stepSec) + stepSec
  {
    MultipleMod(CeilDiv(firstTs, stepSec), stepSec);
    MultipleMod(FloorDiv(lastTs, stepSec), stepSec);
  }

  lemma MultipleMod(q: int, b: int)
    requires b > 0
    ensures (q * b) % b == 0
  {
    DivUnique(q * b, b, q);
  }

  lemma DivUnique(a: int, b: int, q: int)
    requires b > 0 && q * b <= a < q * b + b
    ensures a / b == q && a % b == a - q * b
  {
    var r := a / b;
    if r < q {
      MulMonotone(r + 1, q, b);
    } else if r > q {
      MulMonotone(q + 1, r, b);
    }
  }

  lemma MulMonotone(x: int, y: int, b: int)
    requires x <= y && b > 0
    ensures x * b <= y * b
  {
    assert y * b - x * b == (y - x) * b;
  }

  /** The grid timestamps `gridStart, gridStart + stepSec, ...` up to `gridEnd`; none when `gridEnd < gridStart`. */
  function GridPoints(gridStart: int, gridEnd: int, stepSec: int): (grid: seq<int>)
    requires stepSec > 0
  {
    if gridEnd < gridStart then []
    else seq((gridEnd - gridStart) / stepSec + 1, k => gridStart + k * stepSec)
  }

  lemma GridPointsIncreasing(gridStart: int, gridEnd: int, stepSec: int)
    requires stepSec > 0
    ensures var grid := GridPoints(gridStart, gridEnd, stepSec);
      forall a, b :: 0 <= a < b < |grid| ==> grid[a] < grid[b]
  {
    var grid := GridPoints(gridStart, gridEnd, stepSec);
    forall a, b | 0 <= a < b < |grid| ensures grid[a] < grid[b] {
      MulMonotone(a + 1, b, stepSec);
    }
  }

  /**
   * Where `while (j < sorted.length && sorted[j].ts < t) j++` stops when started at `j`:
   * the first index from `j` on whose timestamp is at least `t`, or the length.
   */
  function Advance(s: seq<Point>, t: int, j: nat): (k: nat)
    requires j <= |s|
    ensures j <= k <= |s|
    ensures forall i :: j <= i < k ==> s[i].ts < t
    ensures k < |s| ==> s[k].ts >= t
    decreases |s| - j
  {
    if j < |s| && s[j].ts < t then Advance(s, t, j + 1) else j
  }

  /** What `interpAt` returns once its cursor stands at `j`. */
  function ValueAtCursor(s: seq<Point>, t: int, j: nat): real
    requires 0 < |s| && j <= |s|
  {
    if j == 0 then s[0].pt
    else if j >= |s| then s[|s| - 1].pt
    else
      var p1, p2 := s[j - 1], s[j];
      if p2.ts - p1.ts <= 0 then p2.pt else Lerp(p1, p2, t)
  }

  /** The straight line through `p1` and `p2` at `t`, for `p1.ts < p2.ts`. */
  function Lerp(p1: Point, p2: Point, t: int): real
    requires p1.ts < p2.ts
  {
    p1.pt + ((t - p1.ts) as real / (p2.ts - p1.ts) as real) * (p2.pt - p1.pt)
  }

  lemma RatioInUnit(x: int, y: int)
    requires 0 < x <= y
    ensures 0.0 < x as real / y as real <= 1.0
  {
    var r := x as real / y as real;
    assert r * y as real == x as real;
  }

  lemma SelfRatio(y: int)
    requires 0 < y
    ensures y as real / y as real == 1.0
  {
    assert 1.0 * y as real == y as real;
  }

  lemma RatioMonotone(x1: int, x2: int, y: int)
    requires x1 <= x2 && 0 < y
    ensures x1 as real / y as real <= x2 as real / y as real
  {
    var r1, r2 := x1 as real / y as real, x2 as real / y as real;
    assert r1 * y as real == x1 as real && r2 * y as real == x2 as real;
    assert (r2 - r1) * y as real >= 0.0;
  }

  lemma ScaleBetween(alpha: real, d: real)
    requires 0.0 <= alpha <= 1.0 && 0.0 <= d
    ensures 0.0 <= alpha * d <= d
  {
    assert (1.0 - alpha) * d >= 0.0;
  }

  lemma ScaleAntitone(a1: real, a2: real, d: real)
    requires a1 <= a2 && d <= 0.0
    ensures a1 * d >= a2 * d
  {
    assert (a2 - a1) * -d >= 0.0;
  }

  /** Over `(p1.ts, p2.ts]` the line stays between its two end values. */
  lemma LerpBetween(p1: Point, p2: Point, t: int)
    requires p1.ts < t <= p2.ts
    ensures Between(Lerp(p1, p2, t), p1.pt, p2.pt)
  {
    var alpha := (t - p1.ts) as real / (p2.ts - p1.ts) as real;
    RatioInUnit(t - p1.ts, p2.ts - p1.ts);
    var a, b := p1.pt, p2.pt;
    assert Lerp(p1, p2, t) == a + alpha * (b - a);
    if a <= b {
      ScaleBetween(alpha, b - a);
      assert a <= a + alpha * (b - a) <= b;
    } else {
      ScaleBetween(alpha, a - b);
      assert alpha * (b - a) == -(alpha * (a - b));
      assert b <= a + alpha * (b - a) <= a;
    }
  }

  /** A falling line falls: later times give no larger values. */
  lemma LerpAntitone(p1: Point, p2: Point, t1: int, t2: int)
    requires p1.ts < p2.ts && p1.pt >= p2.pt && t1 <= t2
    ensures Lerp(p1, p2, t1) >= Lerp(p1, p2, t2)
  {
    RatioMonotone(t1 - p1.ts, t2 - p1.ts, p2.ts - p1.ts);
    ScaleAntitone((t1 - p1.ts) as real / (p2.ts - p1.ts) as real, (t2 - p1.ts) as real / (p2.ts - p1.ts) as real, p2.pt - p1.pt);
  }

  /** The interpolated energy at `t`: the value at the cursor a sweep from index 0 reaches. */
  function Interp(s: seq<Point>, t: int): real
    requires 0 < |s|
  {
    ValueAtCursor(s, t, Advance(s, t, 0))
  }

  /** `gridTs.map((t) => interpAt(t))`, stated per grid point. */
  function GridValues(s: seq<Point>, grid: seq<int>): (kwh: seq<real>)
    requires 0 < |s|
  {
    seq(|grid|, k requires 0 <= k < |grid| => Interp(s, grid[k]))
  }

  /** The kW of one interval: `-(dkwh / stepSec) * 3600`. */
  function IntervalKw(before: real, after: real, stepSec: int): real
    requires stepSec > 0
  {
    -(((after - before) / stepSec as real) * 3600.0)
  }

  /** Backward differences of the grid energy as kW, each stamped with its interval's right end. */
  function PowerPoints(grid: seq<int>, kwh: seq<real>, stepSec: int): (out: seq<Point>)
    requires |grid| == |kwh| && stepSec > 0
  {
    if |grid| < 2 then []
    else seq(|grid| - 1, i requires 0 <= i < |grid| - 1 => Point(grid[i + 1], IntervalKw(kwh[i], kwh[i + 1], stepSec)))
  }

  /** The grid of a working array: the step multiples from the first reading to the last. */
  function Grid(w: seq<Point>, stepSec: int): seq<int>
    requires stepSec > 0 && 0 < |w|
  {
    GridPoints(GridStart(w[0].ts, stepSec), GridEnd(w[|w| - 1].ts, stepSec), stepSec)
  }

  /** Whether a working array gets past the `sorted.length < 2` and `gridEnd - gridStart < stepSec` returns. */
  predicate SpansGrid(w: seq<Point>, stepSec: int)
    requires stepSec > 0
  {
    |w| >= 2 && GridEnd(w[|w| - 1].ts, stepSec) - GridStart(w[0].ts, stepSec) >= stepSec
  }

  /** Steps 2 to 5 of `kwh2kw` on the working array `w`. */
  function Resampled(w: seq<Point>, stepSec: int): seq<Point>
    requires stepSec > 0
  {
    if !SpansGrid(w, stepSec) then []
    else PowerPoints(Grid(w, stepSec), GridValues(w, Grid(w, stepSec)), stepSec)
  }

  /** The result of `kwh2kw(history, stepSec)`. */
  function PowerSeries(history: seq<Point>, stepSec: int): seq<Point>
    requires stepSec > 0
  {
    if |history| < 2 then [] else Resampled(Working(history), stepSec)
  }

  /** The closure `interpAt` of `kwh2kw` together with the cursor `j` it keeps between calls. */
  class Interpolator {
    const sorted: seq<Point>
    var j: nat

    ghost predicate Valid()
      reads this
    {
      0 < |sorted| && j <= |sorted|
    }

    constructor (sorted: seq<Point>)
      requires 0 < |sorted|
      ensures Valid() && this.sorted == sorted && j == 0
    {
      this.sorted := sorted;
      j := 0;
    }

    /** `interpAt(t)`: advances the shared cursor past every point stamped before `t`, then interpolates. */
    method At(t: int) returns (v: real)
      requires Valid()
      modifies this
      ensures Valid()
      ensures old(j) <= j <= |sorted|
      ensures forall i :: old(j) <= i < j ==> sorted[i].ts < t
      ensures j < |sorted| ==> sorted[j].ts >= t
      ensures j == Advance(sorted, t, old(j))
      ensures v == ValueAtCursor(sorted, t, j)
    {
      while j < |sorted| && sorted[j].ts < t
        invariant old(j) <= j <= |sorted|
        invariant Advance(sorted, t, j) == Advance(sorted, t, old(j))
      {
        j := j + 1;
      }
      if j == 0 {
        return sorted[0].pt;
      }
      if j >= |sorted| {
        return sorted[|sorted| - 1].pt;
      }
      var p1 := sorted[j - 1];
      var p2 := sorted[j];
      var dt := p2.ts - p1.ts;
      if dt <= 0 {
        return p2.pt;
      }
      var alpha := (t - p1.ts) as real / dt as real;
      return p1.pt + alpha * (p2.pt - p1.pt);
    }
  }

  /**
   * A cursor that has only passed points stamped before `t` stops where a fresh sweep from
   * index 0 stops: the shared cursor gives the same answers as restarting at every grid point.
   */
  lemma AdvanceFromPrefix(s: seq<Point>, t: int, j: nat)
    requires j <= |s|
    requires forall i :: 0 <= i < j ==> s[i].ts < t
    ensures Advance(s, t, j) == Advance(s, t, 0)
  {
  }

  /** `kwh2kw(history, stepSec)`. */
  method Kwh2Kw(history: seq<Point>, stepSec: int) returns (out: seq<Point>)
    requires stepSec > 0
    ensures out == PowerSeries(history, stepSec)
  {
    if |history| < 2 {
      return [];
    }
    var sorted := Working(history);
    assert PowerSeries(history, stepSec) == Resampled(sorted, stepSec);
    if |sorted| < 2 {
      return [];
    }
    var firstTs := sorted[0].ts;
    var lastTs := sorted[|sorted| - 1].ts;
    var gridStart := GridStart(firstTs, stepSec);
    var gridEnd := GridEnd(lastTs, stepSec);
    if gridEnd - gridStart < stepSec {
      return [];
    }

    var gridTs := GridTimestamps(gridStart, gridEnd, stepSec);
    GridPointsIncreasing(gridStart, gridEnd, stepSec);
    var interp := new Interpolator(sorted);
    var gridKwh := InterpolateGrid(interp, gridTs);
    out := Differences(gridTs, gridKwh, stepSec);
  }

  /** `for (let t = gridStart; t <= gridEnd; t += stepSec) gridTs.push(t)`. */
  method GridTimestamps(gridStart: int, gridEnd: int, stepSec: int) returns (gridTs: seq<int>)
    requires stepSec > 0
    ensures gridTs == GridPoints(gridStart, gridEnd, stepSec)
  {
    gridTs := [];
    var t := gridStart;
    while t <= gridEnd
      invariant t == gridStart + |gridTs| * stepSec
      invariant gridStart <= gridEnd ==> t <= gridEnd + stepSec
      invariant gridEnd < gridStart ==> gridTs == []
      invariant gridTs == Steps(gridStart, stepSec, |gridTs|)
      decreases gridEnd + stepSec - t
    {
      StepsSnoc(gridStart, stepSec, |gridTs|);
      gridTs := gridTs + [t];
      t := t + stepSec;
    }
    if gridStart <= gridEnd {
      GridPointsCount(gridStart, gridEnd, stepSec, |gridTs|);
    }
  }

  /** The first `n` multiples of `stepSec` past `gridStart`. */
  function Steps(gridStart: int, stepSec: int, n: nat): (s: seq<int>)
    ensures |s| == n
  {
    seq(n, k => gridStart + k * stepSec)
  }

  /** One more step appends the next multiple. */
  lemma StepsSnoc(gridStart: int, stepSec: int, n: nat)
    ensures Steps(gridStart, stepSec, n + 1) == Steps(gridStart, stepSec, n) + [gridStart + n * stepSec]
    ensures gridStart + (n + 1) * stepSec == gridStart + n * stepSec + stepSec
  {
    assert Steps(gridStart, stepSec, n + 1)[..n] == Steps(gridStart, stepSec, n);
  }

  /** The grid holds `n` points when the `n`-th multiple past the start is the first beyond the end. */
  lemma GridPointsCount(gridStart: int, gridEnd: int, stepSec: int, n: nat)
    requires stepSec > 0 && n >= 1
    requires gridStart + (n - 1) * stepSec <= gridEnd < gridStart + n * stepSec
    ensures GridPoints(gridStart, gridEnd, stepSec) == Steps(gridStart, stepSec, n)
  {
    assert (n - 1) * stepSec == n * stepSec - stepSec;
    DivUnique(gridEnd - gridStart, stepSec, n - 1);
  }

  /**
   * `gridTs.map((t) => interpAt(t))` for increasing grid timestamps: one call per grid point,
   * all through the same cursor, each answering as a fresh sweep would.
   */
  method InterpolateGrid(interp: Interpolator, gridTs: seq<int>) returns (gridKwh: seq<real>)
    requires interp.Valid() && interp.j == 0
    requires forall a, b :: 0 <= a < b < |gridTs| ==> gridTs[a] < gridTs[b]
    modifies interp
    ensures interp.Valid()
    ensures gridKwh == GridValues(interp.sorted, gridTs)
  {
    gridKwh := [];
    while |gridKwh| < |gridTs|
      invariant |gridKwh| <= |gridTs|
      invariant interp.Valid()
      invariant |gridKwh| < |gridTs| ==> forall i :: 0 <= i < interp.j ==> interp.sorted[i].ts < gridTs[|gridKwh|]
      invariant forall k :: 0 <= k < |gridKwh| ==> gridKwh[k] == Interp(interp.sorted, gridTs[k])
    {
      var tk := gridTs[|gridKwh|];
      AdvanceFromPrefix(interp.sorted, tk, interp.j);
      var v := interp.At(tk);
      gridKwh := gridKwh + [v];
    }
  }

  /** `for (let i = 1; i < gridTs.length; i++) out.push({ ts: gridTs[i], pt: -kw })`. */
  method Differences(gridTs: seq<int>, gridKwh: seq<real>, stepSec: int) returns (out: seq<Point>)
    requires |gridTs| == |gridKwh| && stepSec > 0
    ensures out == PowerPoints(gridTs, gridKwh, stepSec)
  {
    out := [];
    var i := 1;
    while i < |gridTs|
      invariant |gridTs| < 2 ==> out == []
      invariant |gridTs| >= 2 ==> 1 <= i <= |gridTs| && |out| == i - 1
      invariant forall k :: 0 <= k < |out| ==> out[k] == Point(gridTs[k + 1], IntervalKw(gridKwh[k], gridKwh[k + 1], stepSec))
    {
      var dt := stepSec;
      var dkwh := gridKwh[i] - gridKwh[i - 1];
      var kw := (dkwh / dt as real) * 3600.0;
      out := out + [Point(gridTs[i], -kw)];
      i := i + 1;
    }
  }

  /* ---------------------------------------------------------------------------------------------
   * Properties of the interpolation.
   * ------------------------------------------------------------------------------------------- */

  /** `v` lies between `a` and `b`, in whichever order they come. */
  predicate Between(v: real, a: real, b: real)
  {
    (a <= v <= b) || (b <= v <= a)
  }

  /** On strictly increasing timestamps, a sweep for a sample's own timestamp stops on that sample. */
  lemma AdvanceToSample(s: seq<Point>, i: int)
    requires StrictlyIncreasing(s) && 0 <= i < |s|
    ensures Advance(s, s[i].ts, 0) == i
  {
    var k := Advance(s, s[i].ts, 0);
    assert k <= i ==> s[k].ts >= s[i].ts;
  }

  /** At a sample's own timestamp the interpolation returns the sample's value. */
  lemma InterpAtSample(s: seq<Point>, i: int)
    requires StrictlyIncreasing(s) && 0 <= i < |s|
    ensures Interp(s, s[i].ts) == s[i].pt
  {
    AdvanceToSample(s, i);
    if i > 0 {
      assert s[i - 1].ts < s[i].ts;
      var dt := s[i].ts - s[i - 1].ts;
      SelfRatio(dt);
      assert (s[i].ts - s[i - 1].ts) as real / dt as real == 1.0;
    }
  }

  /**
   * Inside the sampled span the cursor stops at the first sample at or after `t`, and the value
   * lies between that sample's value and its predecessor's: the right clamp and the `dt <= 0`
   * fallback are never taken, and the `j === 0` clamp is taken only at `t == firstTs`, where it
   * returns that sample's value.
   */
  lemma InterpBetween(s: seq<Point>, t: int)
    requires StrictlyIncreasing(s) && 0 < |s|
    requires s[0].ts <= t <= s[|s| - 1].ts
    ensures var k := Advance(s, t, 0);
      && k < |s|
      && (k == 0 ==> t == s[0].ts && Interp(s, t) == s[0].pt)
      && (k > 0 ==> s[k - 1].ts < t <= s[k].ts && Between(Interp(s, t), s[k - 1].pt, s[k].pt))
  {
    var k := Advance(s, t, 0);
    if 0 < k < |s| {
      assert s[k - 1].ts < s[k].ts;
      LerpBetween(s[k - 1], s[k], t);
    }
  }

  /** Energy never rises from an earlier reading to a later one (no recharge in the data). */
  ghost predicate MeterNeverRises(s: seq<Point>)
  {
    forall i, k :: 0 <= i < |s| && 0 <= k < |s| && s[i].ts < s[k].ts ==> s[i].pt >= s[k].pt
  }

  lemma AdvanceMonotone(s: seq<Point>, t1: int, t2: int)
    requires t1 <= t2
    ensures Advance(s, t1, 0) <= Advance(s, t2, 0)
  {
  }

  /** When the readings never rise, neither does their interpolation across the sampled span. */
  lemma InterpAntitone(s: seq<Point>, t1: int, t2: int)
    requires StrictlyIncreasing(s) && MeterNeverRises(s) && 0 < |s|
    requires s[0].ts <= t1 <= t2 <= s[|s| - 1].ts
    ensures Interp(s, t1) >= Interp(s, t2)
  {
    var k1, k2 := Advance(s, t1, 0), Advance(s, t2, 0);
    AdvanceMonotone(s, t1, t2);
    InterpBetween(s, t1);
    InterpBetween(s, t2);
    if k1 == 0 {
      assert 0 < k2 ==> s[0].pt >= s[k2 - 1].pt >= s[k2].pt;
    } else if k1 == k2 {
      assert s[k1 - 1].ts < s[k1].ts;
      LerpAntitone(s[k1 - 1], s[k1], t1, t2);
    } else {
      assert s[k1 - 1].pt >= s[k1].pt;
      assert s[k2 - 1].pt >= s[k2].pt;
      assert s[k1].pt >= s[k2 - 1].pt;
    }
  }

  /** Readings that all carry the same energy interpolate to that energy everywhere. */
  lemma InterpConstant(s: seq<Point>, t: int, c: real)
    requires 0 < |s| && forall i :: 0 <= i < |s| ==> s[i].pt == c
    ensures Interp(s, t) == c
  {
  }

  /* ---------------------------------------------------------------------------------------------
   * Properties of the grid and of the kW series.
   * ------------------------------------------------------------------------------------------- */

  /**
   * Between two step multiples at least one step apart, the grid runs from the first to the
   * second in whole steps and has at least two points: the `gridTs.length < 2` return of
   * `kwh2kw` is never taken.
   */
  lemma GridPointsShape(gridStart: int, gridEnd: int, stepSec: int)
    requires stepSec > 0 && gridStart % stepSec == 0 && gridEnd % stepSec == 0
    requires gridEnd - gridStart >= stepSec
    ensures var grid := GridPoints(gridStart, gridEnd, stepSec);
      && |grid| == (gridEnd - gridStart) / stepSec + 1 && |grid| >= 2
      && grid[0] == gridStart && grid[|grid| - 1] == gridEnd
      && forall k :: 0 <= k < |grid| ==> gridStart <= grid[k] <= gridEnd && grid[k] % stepSec == 0
  {
    var grid := GridPoints(gridStart, gridEnd, stepSec);
    var a, b := gridStart / stepSec, gridEnd / stepSec;
    assert gridEnd - gridStart == (b - a) * stepSec;
    DivUnique(gridEnd - gridStart, stepSec, b - a);
    assert b - a >= 1 by {
      if b - a <= 0 {
        MulMonotone(b - a, 0, stepSec);
      }
    }
    forall k | 0 <= k < |grid| ensures gridStart <= grid[k] <= gridEnd && grid[k] % stepSec == 0 {
      MulMonotone(0, k, stepSec);
      MulMonotone(k, b - a, stepSec);
      assert grid[k] == (a + k) * stepSec;
      MultipleMod(a + k, stepSec);
    }
  }

  /** With fewer than two distinct timestamps there is nothing to resample. */
  lemma PowerSeriesNeedsTwoTimestamps(history: seq<Point>, stepSec: int)
    requires stepSec > 0 && |Timestamps(history)| < 2
    ensures PowerSeries(history, stepSec) == []
  {
    WorkingSize(history);
  }

  /**
   * Past the early returns, the kW series has one point per grid interval, stamped with the
   * interval's right end: the step multiples after `gridStart` up to `gridEnd`, all strictly
   * after the first reading and at or before the last.
   */
  lemma ResampledShape(w: seq<Point>, stepSec: int)
    requires stepSec > 0 && SpansGrid(w, stepSec)
    ensures var gs, ge := GridStart(w[0].ts, stepSec), GridEnd(w[|w| - 1].ts, stepSec);
      var out := Resampled(w, stepSec);
      && |out| == (ge - gs) / stepSec && |out| >= 1
      && out[|out| - 1].ts == ge
      && forall i :: 0 <= i < |out| ==>
           && out[i].ts == gs + (i + 1) * stepSec
           && out[i].ts % stepSec == 0
           && w[0].ts < out[i].ts <= w[|w| - 1].ts
  {
    var gs, ge := GridStart(w[0].ts, stepSec), GridEnd(w[|w| - 1].ts, stepSec);
    GridBounds(w[0].ts, w[|w| - 1].ts, stepSec);
    var grid := GridPoints(gs, ge, stepSec);
    GridPowerShape(gs, ge, stepSec, GridValues(w, grid));
  }

  /** The kW series over the grid from `gs` to `ge`, whatever the energies: one point per step, at each interval's right end. */
  lemma GridPowerShape(gs: int, ge: int, stepSec: int, kwh: seq<real>)
    requires stepSec > 0 && gs % stepSec == 0 && ge % stepSec == 0 && ge - gs >= stepSec
    requires |kwh| == |GridPoints(gs, ge, stepSec)|
    ensures var out := PowerPoints(GridPoints(gs, ge, stepSec), kwh, stepSec);
      && |out| == (ge - gs) / stepSec && |out| >= 1
      && out[|out| - 1].ts == ge
      && forall i :: 0 <= i < |out| ==>
           && out[i].ts == gs + (i + 1) * stepSec
           && out[i].ts % stepSec == 0
           && gs < out[i].ts <= ge
  {
    GridPointsShape(gs, ge, stepSec);
    var grid := GridPoints(gs, ge, stepSec);
    var out := PowerPoints(grid, kwh, stepSec);
    forall i | 0 <= i < |out|
      ensures out[i].ts == gs + (i + 1) * stepSec
      ensures out[i].ts % stepSec == 0
      ensures gs < out[i].ts <= ge
    {
      assert out[i].ts == grid[i + 1];
      MulMonotone(1, i + 1, stepSec);
    }
  }

  /** The energy a kW series stands for: each point's kW held over one step, in kWh. */
  function ConsumedKwh(out: seq<Point>, stepSec: int): real
    requires stepSec > 0
  {
    if |out| == 0 then 0.0 else out[0].pt * stepSec as real / 3600.0 + ConsumedKwh(out[1..], stepSec)
  }

  /** One interval's kW, held over the step, gives back the energy drop of the interval. */
  lemma IntervalEnergy(before: real, after: real, stepSec: int)
    requires stepSec > 0
    ensures IntervalKw(before, after, stepSec) * stepSec as real / 3600.0 == before - after
  {
    var d := (after - before) / stepSec as real;
    assert d * stepSec as real == after - before;
  }

  /** The per-interval energies telescope to the drop from the first grid value to the last. */
  lemma {:induction false} PowerPointsTelescope(grid: seq<int>, kwh: seq<real>, stepSec: int)
    requires |grid| == |kwh| >= 2 && stepSec > 0
    ensures ConsumedKwh(PowerPoints(grid, kwh, stepSec), stepSec) == kwh[0] - kwh[|kwh| - 1]
    decreases |grid|
  {
    var out := PowerPoints(grid, kwh, stepSec);
    IntervalEnergy(kwh[0], kwh[1], stepSec);
    if |grid| == 2 {
      assert out[1..] == [];
    } else {
      PowerPointsTelescope(grid[1..], kwh[1..], stepSec);
      assert out[1..] == PowerPoints(grid[1..], kwh[1..], stepSec);
    }
  }

  /**
   * The kW series accounts for exactly the interpolated energy drop between `gridStart` and
   * `gridEnd`: nothing is lost or counted twice between intervals.
   */
  lemma ResampledEnergy(w: seq<Point>, stepSec: int)
    requires stepSec > 0 && SpansGrid(w, stepSec)
    ensures var gs, ge := GridStart(w[0].ts, stepSec), GridEnd(w[|w| - 1].ts, stepSec);
      ConsumedKwh(Resampled(w, stepSec), stepSec) == Interp(w, gs) - Interp(w, ge)
  {
    var gs, ge := GridStart(w[0].ts, stepSec), GridEnd(w[|w| - 1].ts, stepSec);
    GridBounds(w[0].ts, w[|w| - 1].ts, stepSec);
    GridPointsShape(gs, ge, stepSec);
    var grid := Grid(w, stepSec);
    PowerPointsTelescope(grid, GridValues(w, grid), stepSec);
  }

  /** Falling grid energy gives non-negative kW; flat grid energy gives zero kW. */
  lemma PowerPointsSign(grid: seq<int>, kwh: seq<real>, stepSec: int)
    requires |grid| == |kwh| && stepSec > 0
    ensures (forall i :: 0 <= i < |kwh| - 1 ==> kwh[i + 1] <= kwh[i]) ==>
      forall i :: 0 <= i < |PowerPoints(grid, kwh, stepSec)| ==> PowerPoints(grid, kwh, stepSec)[i].pt >= 0.0
    ensures (forall i :: 0 <= i < |kwh| - 1 ==> kwh[i + 1] == kwh[i]) ==>
      forall i :: 0 <= i < |PowerPoints(grid, kwh, stepSec)| ==> PowerPoints(grid, kwh, stepSec)[i].pt == 0.0
  {
    var out := PowerPoints(grid, kwh, stepSec);
    forall i | 0 <= i < |out|
      ensures kwh[i + 1] <= kwh[i] ==> out[i].pt >= 0.0
      ensures kwh[i + 1] == kwh[i] ==> out[i].pt == 0.0
    {
      IntervalKwSign(kwh[i], kwh[i + 1], stepSec);
    }
  }

  /** A falling meter gives a non-negative kW; a flat one gives 0 kW. */
  lemma IntervalKwSign(before: real, after: real, stepSec: int)
    requires stepSec > 0
    ensures after <= before ==> IntervalKw(before, after, stepSec) >= 0.0
    ensures after == before ==> IntervalKw(before, after, stepSec) == 0.0
  {
    var q := (after - before) / stepSec as real;
    assert q * stepSec as real == after - before;
  }

  /** On strictly increasing readings that never rise, every interval's kW is non-negative. */
  lemma ResampledNonNegative(w: seq<Point>, stepSec: int)
    requires stepSec > 0 && StrictlyIncreasing(w) && MeterNeverRises(w)
    ensures forall i :: 0 <= i < |Resampled(w, stepSec)| ==> Resampled(w, stepSec)[i].pt >= 0.0
  {
    if SpansGrid(w, stepSec) {
      var gs, ge := GridStart(w[0].ts, stepSec), GridEnd(w[|w| - 1].ts, stepSec);
      GridBounds(w[0].ts, w[|w| - 1].ts, stepSec);
      GridPointsShape(gs, ge, stepSec);
      var grid := Grid(w, stepSec);
      var kwh := GridValues(w, grid);
      forall i | 0 <= i < |kwh| - 1 ensures kwh[i + 1] <= kwh[i] {
        InterpAntitone(w, grid[i], grid[i + 1]);
      }
      PowerPointsSign(grid, kwh, stepSec);
    }
  }

  /** When no reading is above an earlier one, every kW value `kwh2kw` returns is non-negative. */
  lemma PowerSeriesNonNegative(history: seq<Point>, stepSec: int)
    requires stepSec > 0 && MeterNeverRises(history)
    ensures forall i :: 0 <= i < |PowerSeries(history, stepSec)| ==> PowerSeries(history, stepSec)[i].pt >= 0.0
  {
    if |history| >= 2 {
      var w := Working(history);
      WorkingKeepsFirstPerTimestamp(history);
      WorkingFromHistory(history);
      forall i, k | 0 <= i < |w| && 0 <= k < |w| && w[i].ts < w[k].ts ensures w[i].pt >= w[k].pt {
        assert w[i] in history && w[k] in history;
      }
      ResampledNonNegative(w, stepSec);
    }
  }

  /** Readings that all carry the same energy give a kW series of zeros. */
  lemma ResampledConstant(w: seq<Point>, stepSec: int, c: real)
    requires stepSec > 0 && forall i :: 0 <= i < |w| ==> w[i].pt == c
    ensures forall i :: 0 <= i < |Resampled(w, stepSec)| ==> Resampled(w, stepSec)[i].pt == 0.0
  {
    if SpansGrid(w, stepSec) {
      var grid := Grid(w, stepSec);
      var kwh := GridValues(w, grid);
      forall k | 0 <= k < |kwh| ensures kwh[k] == c {
        InterpConstant(w, grid[k], c);
      }
      PowerPointsSign(grid, kwh, stepSec);
    }
  }

  /** Readings that never change give a kW series of zeros from `kwh2kw`. */
  lemma PowerSeriesConstant(history: seq<Point>, stepSec: int, c: real)
    requires stepSec > 0 && forall i :: 0 <= i < |history| ==> history[i].pt == c
    ensures forall i :: 0 <= i < |PowerSeries(history, stepSec)| ==> PowerSeries(history, stepSec)[i].pt == 0.0
  {
    if |history| >= 2 {
      var w := Working(history);
      WorkingFromHistory(history);
      forall i | 0 <= i < |w| ensures w[i].pt == c {
        assert w[i] in history;
      }
      ResampledConstant(w, stepSec, c);
    }
  }

  /** Two readings 15 minutes apart with 2 kWh used between them: one point of 8 kW at the later one. */
  lemma TwoReadingsOneInterval()
    ensures PowerSeries([Point(0, 10.0), Point(900, 8.0)], DefaultStepSec) == [Point(900, 8.0)]
  {
    var h := [Point(0, 10.0), Point(900, 8.0)];
    assert h[..1] == [Point(0, 10.0)];
    assert SortByTs(h) == h;
    assert DropRepeatedTs(h[..1]) == [Point(0, 10.0)];
    assert Working(h) == h;
    TwoReadingsResampled(h);
  }

  lemma TwoReadingsResampled(w: seq<Point>)
    requires w == [Point(0, 10.0), Point(900, 8.0)]
    ensures Resampled(w, 900) == [Point(900, 8.0)]
  {
    var gs, ge := GridStart(w[0].ts, 900), GridEnd(w[|w| - 1].ts, 900);
    assert gs == 0 && ge == 900;
    assert SpansGrid(w, 900);
    InterpAtSample(w, 0);
    InterpAtSample(w, 1);
    assert Interp(w, gs) == 10.0;
    assert Interp(w, ge) == 8.0;
    ResampledEnergy(w, 900);
    ResampledShape(w, 900);
    var out := Resampled(w, 900);
    assert |out| == 1 && out[0].ts == 900;
    assert ConsumedKwh(out, 900) == 2.0;
    assert out[1..] == [];
    assert out[0].pt * 900.0 / 3600.0 == 2.0;
  }

  /** Readings at 905 s and 1795 s contain no whole 15-minute grid interval: the series is empty. */
  lemma ShortSpanEmpty()
    ensures PowerSeries([Point(905, 1.0), Point(1795, 0.5)], DefaultStepSec) == []
  {
    var h := [Point(905, 1.0), Point(1795, 0.5)];
    assert h[..1] == [Point(905, 1.0)];
    assert SortByTs(h) == h;
    assert DropRepeatedTs(h[..1]) == [Point(905, 1.0)];
    assert Working(h) == h;
    assert GridStart(905, 900) == 1800 && GridEnd(1795, 900) == 900;
  }
}
