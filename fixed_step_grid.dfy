// The time grid of the fixed-step solvers (`get_fixed_step_sizes`): every
// interval between consecutive points of the merged time list is cut into
// equal steps no longer than `max_dt` (up to the relative rounding
// tolerance the source allows), with the sign of the interval kept so that
// backward integration works.
//
// Times are exact reals here, so the rounding correction the source makes
// for floating point is modelled with its literal tolerance 1e-15.
module FixedStepGrid {

  /** Relative tolerance of the rounding correction: 1e-15. */
  const Tol: real := 0.000000000000001

  function Abs(x: real): real
  {
    if x < 0.0 then -x else x
  }

  /** Least integer not below x. */
  function Ceil(x: real): int
  {
    -((-x).Floor)
  }

  /** `np.diff(t_list)`. */
  function Deltas(ts: seq<real>): (d: seq<real>)
    ensures |d| == if |ts| == 0 then 0 else |ts| - 1
  {
    if |ts| <= 1 then [] else seq(|ts| - 1, i requires 0 <= i < |ts| - 1 => ts[i + 1] - ts[i])
  }

  /**
   * The step count of one interval of signed length `delta`: the truncated
   * quotient `|delta / max_dt|`, raised to 1 when it is 0, and bumped by one
   * when the resulting step still exceeds `max_dt` by more than the relative
   * tolerance.
   */
  function StepCount(delta: real, maxDt: real): (n: int)
    requires maxDt > 0.0
    ensures n >= 1
  {
    var n := Abs(delta / maxDt).Floor;
    if n == 0 then 1
    else if Abs(delta / n as real) / maxDt > 1.0 + Tol then n + 1
    else n
  }

  /** The step counts of all intervals of `ts` (`n_steps_list`). */
  function StepCounts(ts: seq<real>, maxDt: real): (ns: seq<int>)
    requires maxDt > 0.0
    ensures |ns| == |Deltas(ts)|
    ensures forall i :: 0 <= i < |ns| ==> ns[i] >= 1
  {
    seq(|Deltas(ts)|, i requires 0 <= i < |Deltas(ts)| => StepCount(Deltas(ts)[i], maxDt))
  }

  /** The step sizes of all intervals of `ts` (`h_list`). */
  function StepSizes(ts: seq<real>, maxDt: real): (hs: seq<real>)
    requires maxDt > 0.0
    ensures |hs| == |Deltas(ts)|
  {
    seq(|Deltas(ts)|, i requires 0 <= i < |Deltas(ts)| =>
      Deltas(ts)[i] / StepCount(Deltas(ts)[i], maxDt) as real)
  }

  /**
   * The grid invariant: one count and one size per interval, at least one
   * step per interval, the steps of an interval add up to it exactly
   * (so the sign is kept), and no step exceeds `max_dt` beyond the tolerance.
   */
  predicate ValidGrid(ts: seq<real>, hs: seq<real>, ns: seq<int>, maxDt: real)
  {
    && |hs| == |Deltas(ts)| && |ns| == |Deltas(ts)|
    && forall i :: 0 <= i < |ns| ==>
         && ns[i] >= 1
         && hs[i] * ns[i] as real == ts[i + 1] - ts[i]
         && Abs(hs[i]) <= maxDt * (1.0 + Tol)
  }

  lemma {:induction false} AbsDiv(x: real, y: real)
    requires y > 0.0
    ensures Abs(x / y) == Abs(x) / y
  {
  }

  lemma {:induction false} MulMonotone(x: real, y: real, m: real)
    requires x <= y && m > 0.0
    ensures x * m <= y * m
  {
  }

  lemma {:induction false} MulStrict(x: real, y: real, m: real)
    requires x < y && m > 0.0
    ensures x * m < y * m
  {
  }

  /** With no interval step count below 1, the count is 1 and the one step fits. */
  lemma {:induction false} ShortInterval(a: real, m: real)
    requires a >= 0.0 && m > 0.0 && a / m < 1.0
    ensures a < m
  {
    MulStrict(a / m, 1.0, m);
  }

  /** After a bump the step fits strictly and the truncated count was too small. */
  lemma {:induction false} BumpedInterval(a: real, m: real, n0: int)
    requires a >= 0.0 && m > 0.0 && n0 >= 1
    requires a / m < n0 as real + 1.0
    requires a / n0 as real / m > 1.0 + Tol
    ensures a / (n0 + 1) as real < m
    ensures n0 as real * m < a
  {
    MulStrict(a / m, n0 as real + 1.0, m);
    assert a < (n0 + 1) as real * m;
    var s := a / n0 as real;
    MulStrict(1.0 + Tol, s / m, m);
    assert m < s;
    MulStrict(m, s, n0 as real);
  }

  /** Without a bump the truncated count is kept: one fewer would be too coarse. */
  lemma {:induction false} KeptInterval(a: real, m: real, n0: int)
    requires a >= 0.0 && m > 0.0 && n0 >= 1
    requires n0 as real <= a / m
    ensures (n0 - 1) as real * m < a
    ensures n0 as real * m <= a
  {
    MulMonotone(n0 as real, a / m, m);
  }

  lemma {:induction false} DivMul(x: real, y: real)
    requires y != 0.0
    ensures (x / y) * y == x
    ensures (x < 0.0 <==> x / y < 0.0) || y < 0.0
  {
  }

  /** The step count in terms of `|delta|` alone. */
  lemma {:induction false} StepCountOfAbs(delta: real, maxDt: real)
    requires maxDt > 0.0
    ensures var a := Abs(delta);
      var n0 := (a / maxDt).Floor;
      && n0 >= 0
      && n0 as real <= a / maxDt < n0 as real + 1.0
      && StepCount(delta, maxDt) == (if n0 == 0 then 1 else if a / n0 as real / maxDt > 1.0 + Tol then n0 + 1 else n0)
  {
    AbsDiv(delta, maxDt);
    var n0 := (Abs(delta) / maxDt).Floor;
    if n0 != 0 {
      AbsDiv(delta, n0 as real);
    }
  }

  /**
   * The counting core on `a = |delta|` and `m = max_dt`: the step fits up to
   * the tolerance, one step fewer would not fit, and the count is the
   * ceiling of `a / m` (at least 1), or one less within the tolerance.
   */
  lemma {:induction false} CountFacts(a: real, m: real, n0: int, n: int)
    requires a >= 0.0 && m > 0.0 && n0 >= 0
    requires n0 as real <= a / m < n0 as real + 1.0
    requires n == (if n0 == 0 then 1 else if a / n0 as real / m > 1.0 + Tol then n0 + 1 else n0)
    ensures n >= 1
    ensures a / n as real <= m * (1.0 + Tol)
    ensures n == 1 || (n - 1) as real * m < a
    ensures var c := Ceil(a / m);
      n == (if c < 1 then 1 else c) || (n == c - 1 && a <= n as real * m * (1.0 + Tol))
  {
    var q := a / m;
    var c := Ceil(q);
    if n0 == 0 {
      ShortInterval(a, m);
    } else if a / n0 as real / m > 1.0 + Tol {
      BumpedInterval(a, m, n0);
      assert n0 as real < q by {
        MulStrict(n0 as real * m, a, 1.0 / m);
      }
    } else {
      KeptInterval(a, m, n0);
      assert a / n0 as real <= m * (1.0 + Tol) by {
        MulMonotone(a / n0 as real / m, 1.0 + Tol, m);
      }
      if q != n0 as real {
        assert c == n + 1;
        MulMonotone(a / n as real, m * (1.0 + Tol), n as real);
      }
    }
  }

  /**
   * What one interval gets: at least one step; the step times the count is
   * the interval exactly, with its sign; the step is at most `max_dt` up to
   * the tolerance; one step fewer would be longer than `max_dt`; and the
   * count is `max(1, ceil(|delta| / max_dt))`, or one less than that when
   * the tolerance absorbs the excess.
   */
  lemma {:induction false} StepCountSpec(delta: real, maxDt: real)
    requires maxDt > 0.0
    ensures var n := StepCount(delta, maxDt);
      && n >= 1
      && (delta / n as real) * n as real == delta
      && (delta < 0.0 <==> delta / n as real < 0.0)
      && Abs(delta / n as real) <= maxDt * (1.0 + Tol)
      && (n == 1 || (n - 1) as real * maxDt < Abs(delta))
      && var c := Ceil(Abs(delta) / maxDt);
         (n == (if c < 1 then 1 else c) || (n == c - 1 && Abs(delta) <= n as real * maxDt * (1.0 + Tol)))
  {
    StepCountOfAbs(delta, maxDt);
    var a := Abs(delta);
    var n0 := (a / maxDt).Floor;
    var n := StepCount(delta, maxDt);
    CountFacts(a, maxDt, n0, n);
    DivMul(delta, n as real);
    AbsDiv(delta, n as real);
  }

  /** One interval of the grid built from `ts`. */
  lemma {:induction false} StepSizesValidAt(ts: seq<real>, maxDt: real, i: int)
    requires maxDt > 0.0 && 0 <= i < |Deltas(ts)|
    ensures StepCounts(ts, maxDt)[i] >= 1
    ensures StepSizes(ts, maxDt)[i] * StepCounts(ts, maxDt)[i] as real == ts[i + 1] - ts[i]
    ensures Abs(StepSizes(ts, maxDt)[i]) <= maxDt * (1.0 + Tol)
  {
    var delta := Deltas(ts)[i];
    var n := StepCounts(ts, maxDt)[i];
    var h := StepSizes(ts, maxDt)[i];
    assert delta == ts[i + 1] - ts[i];
    assert n == StepCount(delta, maxDt) && h == delta / n as real;
    assert n >= 1 && Abs(h) <= maxDt * (1.0 + Tol) by {
      StepCountSpec(delta, maxDt);
    }
    DivMul(delta, n as real);
  }

  /** The grid built from any time list satisfies the grid invariant. */
  lemma {:induction false} StepSizesValid(ts: seq<real>, maxDt: real)
    requires maxDt > 0.0
    ensures ValidGrid(ts, StepSizes(ts, maxDt), StepCounts(ts, maxDt), maxDt)
  {
    forall i | 0 <= i < |Deltas(ts)|
      ensures StepCounts(ts, maxDt)[i] >= 1
      ensures StepSizes(ts, maxDt)[i] * StepCounts(ts, maxDt)[i] as real == ts[i + 1] - ts[i]
      ensures Abs(StepSizes(ts, maxDt)[i]) <= maxDt * (1.0 + Tol)
    {
      StepSizesValidAt(ts, maxDt, i);
    }
  }

  /**
   * `get_fixed_step_sizes` on an already merged time list: the truncated
   * quotients first, then the in-place correction loop, then the step sizes.
   * What the result satisfies is `StepSizesValid` and `StepCountSpec`.
   */
  method GetFixedStepSizes(tList: seq<real>, maxDt: real) returns (hList: seq<real>, nStepsList: seq<int>)
    requires maxDt > 0.0
    ensures nStepsList == StepCounts(tList, maxDt)
    ensures hList == StepSizes(tList, maxDt)
  {
    var deltaTList := Deltas(tList);
    nStepsList := seq(|deltaTList|, i requires 0 <= i < |deltaTList| => Abs(deltaTList[i] / maxDt).Floor);
    var idx := 0;
    while idx < |deltaTList|
      invariant 0 <= idx <= |deltaTList| && |nStepsList| == |deltaTList|
      invariant forall i :: 0 <= i < idx ==> nStepsList[i] == StepCount(deltaTList[i], maxDt)
      invariant forall i :: idx <= i < |deltaTList| ==> nStepsList[i] == Abs(deltaTList[i] / maxDt).Floor
    {
      var nSteps := nStepsList[idx];
      if nSteps == 0 {
        nStepsList := nStepsList[idx := 1];
      } else if Abs(deltaTList[idx] / nSteps as real) / maxDt > 1.0 + Tol {
        nStepsList := nStepsList[idx := nSteps + 1];
      }
      idx := idx + 1;
    }
    assert nStepsList == StepCounts(tList, maxDt);
    hList := seq(|deltaTList|, i requires 0 <= i < |deltaTList| =>
      deltaTList[i] / nStepsList[i] as real);
  }
}
