// The two stepping drivers of the fixed-step solvers, over an abstract
// single-step rule `take_step(rhs_func, t, y, h)`:
//  - `fixed_step_solver_template`, nested loops that thread the state
//    through `n_steps` steps per interval;
//  - `fixed_step_solver_template_jax`, the same computation as two nested
//    `jax.lax.scan`s with a fixed `max_steps` inner length whose extra
//    iterations are masked out by the identity.
// Both are tied to one reference definition, `Trajectory`, and so to each
// other.
module FixedStepTemplates {
  import opened FixedStepGrid

  /** One interval of the grid: start time, step size, step count. */
  datatype Interval = Interval(t: real, h: real, n: int)

  function Min3(a: nat, b: nat, c: nat): nat
  {
    if a <= b && a <= c then a else if b <= c then b else c
  }

  /** `zip(t_list, h_list, n_steps_list)`: as long as the shortest list. */
  function Zip(ts: seq<real>, hs: seq<real>, ns: seq<int>): (r: seq<Interval>)
    ensures |r| == Min3(|ts|, |hs|, |ns|)
  {
    seq(Min3(|ts|, |hs|, |ns|), i requires 0 <= i < Min3(|ts|, |hs|, |ns|) => Interval(ts[i], hs[i], ns[i]))
  }

  /** Dropping the last time point (`t_list[:-1]`) does not change the zip. */
  lemma {:induction false} ZipDropsLast(ts: seq<real>, hs: seq<real>, ns: seq<int>)
    requires |ts| >= 1 && |hs| == |ns| == |ts| - 1
    ensures Zip(ts[..|ts| - 1], hs, ns) == Zip(ts, hs, ns)
  {
  }

  /** The grid of a merged time list, interval by interval. */
  function Grid(tList: seq<real>, maxDt: real): (g: seq<Interval>)
    requires maxDt > 0.0
    ensures |g| == |Deltas(tList)|
  {
    Zip(tList, StepSizes(tList, maxDt), StepCounts(tList, maxDt))
  }

  /** Every interval of the grid has at least one step. */
  lemma {:induction false} GridStepCounts(tList: seq<real>, maxDt: real)
    requires maxDt > 0.0
    ensures forall i :: 0 <= i < |Grid(tList, maxDt)| ==> Grid(tList, maxDt)[i].n >= 1
  {
    forall i | 0 <= i < |Grid(tList, maxDt)|
      ensures Grid(tList, maxDt)[i].n >= 1
    {
      StepSizesValidAt(tList, maxDt, i);
    }
  }

  /**
   * `n` applications of the step rule from `(t, y)` with step `h`, the time
   * advancing by `h` after each (`range(n)` is empty for `n <= 0`).
   */
  function StepsFrom<F, Y>(takeStep: (F, real, Y, real) -> Y, rhsFunc: F, t: real, h: real, n: int, y: Y): Y
    decreases n
  {
    if n <= 0 then y else StepsFrom(takeStep, rhsFunc, t + h, h, n - 1, takeStep(rhsFunc, t, y, h))
  }

  /** The time of step `j` of an interval starting at `t` with step `h`: `t + h * j`. */
  function TimeAt(t: real, h: real, j: int): real
  {
    t + h * j as real
  }

  /** Step k of an interval is taken at time `t + k*h`: the last of `n` steps at `t + (n-1)*h`. */
  lemma {:induction false} StepsAtTimes<F, Y>(takeStep: (F, real, Y, real) -> Y, rhsFunc: F, t: real, h: real, n: int, y: Y)
    requires n >= 1
    ensures StepsFrom(takeStep, rhsFunc, t, h, n, y)
         == takeStep(rhsFunc, TimeAt(t, h, n - 1), StepsFrom(takeStep, rhsFunc, t, h, n - 1, y), h)
    decreases n
  {
    var y1 := takeStep(rhsFunc, t, y, h);
    assert StepsFrom(takeStep, rhsFunc, t, h, n, y) == StepsFrom(takeStep, rhsFunc, t + h, h, n - 1, y1);
    if n == 1 {
      assert TimeAt(t, h, n - 1) == t;
    } else {
      StepsAtTimes(takeStep, rhsFunc, t + h, h, n - 1, y1);
      assert StepsFrom(takeStep, rhsFunc, t, h, n - 1, y) == StepsFrom(takeStep, rhsFunc, t + h, h, n - 2, y1);
      var tl := TimeAt(t + h, h, n - 2);
      assert tl == TimeAt(t, h, n - 1);
      assert StepsFrom(takeStep, rhsFunc, t + h, h, n - 1, y1)
          == takeStep(rhsFunc, tl, StepsFrom(takeStep, rhsFunc, t + h, h, n - 2, y1), h);
    }
  }

  /** The value at every breakpoint: `y0`, then each interval's steps applied to the previous value. */
  function Trajectory<F, Y>(takeStep: (F, real, Y, real) -> Y, rhsFunc: F, ivs: seq<Interval>, y0: Y): (ys: seq<Y>)
    ensures |ys| == |ivs| + 1
    decreases |ivs|
  {
    [y0] + if |ivs| == 0 then [] else
      Trajectory(takeStep, rhsFunc, ivs[1..], StepsFrom(takeStep, rhsFunc, ivs[0].t, ivs[0].h, ivs[0].n, y0))
  }

  /**
   * One value per breakpoint; the first is `y0`, and each next one is the
   * previous one advanced by its interval's steps.
   */
  lemma {:induction false} TrajectoryAt<F, Y>(takeStep: (F, real, Y, real) -> Y, rhsFunc: F, ivs: seq<Interval>, y0: Y)
    ensures var ys := Trajectory(takeStep, rhsFunc, ivs, y0);
      && |ys| == |ivs| + 1
      && ys[0] == y0
      && forall i {:trigger ivs[i]} :: 0 <= i < |ivs| ==> ys[i + 1] == StepsFrom(takeStep, rhsFunc, ivs[i].t, ivs[i].h, ivs[i].n, ys[i])
    decreases |ivs|
  {
    if |ivs| > 0 {
      var y1 := StepsFrom(takeStep, rhsFunc, ivs[0].t, ivs[0].h, ivs[0].n, y0);
      TrajectoryAt(takeStep, rhsFunc, ivs[1..], y1);
      var ys := Trajectory(takeStep, rhsFunc, ivs, y0);
      var rest := Trajectory(takeStep, rhsFunc, ivs[1..], y1);
      assert ys == [y0] + rest;
      forall i | 0 <= i < |ivs|
        ensures ys[i + 1] == StepsFrom(takeStep, rhsFunc, ivs[i].t, ivs[i].h, ivs[i].n, ys[i])
      {
        if i > 0 {
          assert ivs[1..][i - 1] == ivs[i];
        }
      }
    }
  }

  /**
   * The inner loop of `fixed_step_solver_template`: `n_steps` applications
   * of the step rule from `(t, y)`, the time advancing by `h` after each.
   */
  method StepInterval<F, Y>(takeStep: (F, real, Y, real) -> Y, rhsFunc: F, currentT: real, h: real, nSteps: int, current: Y)
    returns (y: Y)
    ensures y == StepsFrom(takeStep, rhsFunc, currentT, h, nSteps, current)
  {
    y := current;
    var innerT := currentT;
    var k := 0;
    while k < nSteps
      invariant 0 <= k <= (if nSteps < 0 then 0 else nSteps)
      invariant StepsFrom(takeStep, rhsFunc, innerT, h, nSteps - k, y)
             == StepsFrom(takeStep, rhsFunc, currentT, h, nSteps, current)
    {
      assert StepsFrom(takeStep, rhsFunc, innerT, h, nSteps - k, y)
          == StepsFrom(takeStep, rhsFunc, innerT + h, h, nSteps - k - 1, takeStep(rhsFunc, innerT, y, h));
      y := takeStep(rhsFunc, innerT, y, h);
      innerT := innerT + h;
      k := k + 1;
    }
  }

  /**
   * `fixed_step_solver_template` before trimming to `t_eval`: builds the
   * grid, then runs the step rule `n_steps` times per interval, appending
   * the value reached at each breakpoint.
   */
  method FixedStepSolverTemplate<F, Y>(takeStep: (F, real, Y, real) -> Y, rhsFunc: F, tList: seq<real>, y0: Y, maxDt: real)
    returns (ys: seq<Y>)
    requires maxDt > 0.0
    ensures ys == Trajectory(takeStep, rhsFunc, Grid(tList, maxDt), y0)
    ensures |ys| == |Grid(tList, maxDt)| + 1 && ys[0] == y0
    ensures forall i {:trigger Grid(tList, maxDt)[i]} :: 0 <= i < |Grid(tList, maxDt)| ==>
      var iv := Grid(tList, maxDt)[i];
      ys[i + 1] == StepsFrom(takeStep, rhsFunc, iv.t, iv.h, iv.n, ys[i])
  {
    var hList, nStepsList := GetFixedStepSizes(tList, maxDt);
    ghost var ivs := Zip(tList, hList, nStepsList);
    assert ivs == Grid(tList, maxDt);
    ghost var spec := Trajectory(takeStep, rhsFunc, ivs, y0);
    TrajectoryAt(takeStep, rhsFunc, ivs, y0);
    ys := [y0];
    var i := 0;
    while i < |tList| && i < |hList| && i < |nStepsList|
      invariant 0 <= i <= |ivs|
      invariant ys == spec[..i + 1]
    {
      var currentT, h, nSteps := tList[i], hList[i], nStepsList[i];
      var y := StepInterval(takeStep, rhsFunc, currentT, h, nSteps, ys[|ys| - 1]);
      assert ys + [y] == spec[..i + 2] by {
        assert ivs[i] == Interval(currentT, h, nSteps);
        assert spec[..i + 2] == spec[..i + 1] + [spec[i + 1]];
      }
      ys := ys + [y];
      i := i + 1;
    }
    assert ys == spec;
  }

  /**
   * `jax.lax.scan(f, init, xs)`: threads the carry through `xs` and stacks
   * the per-element outputs.
   */
  function LaxScan<C, X, O>(f: (C, X) -> (C, O), init: C, xs: seq<X>): (r: (C, seq<O>))
    ensures |r.1| == |xs|
    decreases |xs|
  {
    if |xs| == 0 then (init, [])
    else
      var first := f(init, xs[0]);
      var rest := LaxScan(f, first.0, xs[1..]);
      (rest.0, [first.1] + rest.1)
  }

  /** `jnp.arange(m)`. */
  function Range(m: nat): (r: seq<int>)
    ensures |r| == m && forall i :: 0 <= i < m ==> r[i] == i
  {
    seq(m, i => i)
  }

  /** `n_steps_list.max()`. */
  function MaxOf(s: seq<int>): (m: int)
    requires |s| > 0
    ensures forall i :: 0 <= i < |s| ==> s[i] <= m
    ensures exists i :: 0 <= i < |s| && s[i] == m
  {
    if |s| == 1 then s[0]
    else
      var rest := MaxOf(s[1..]);
      assert forall i :: 1 <= i < |s| ==> s[i] == s[1..][i - 1];
      if s[0] >= rest then s[0] else rest
  }

  /**
   * `scan_take_step`: one inner iteration on the carry `(t, y)`; the step
   * rule runs only while `step < n_steps`, the time advances regardless.
   */
  function ScanTakeStep<F, Y>(takeStep: (F, real, Y, real) -> Y, rhsFunc: F, h: real, nSteps: int): ((real, Y), int) -> ((real, Y), ())
  {
    (carry: (real, Y), step: int) =>
      ((carry.0 + h, if step < nSteps then takeStep(rhsFunc, carry.0, carry.1, h) else carry.1), ())
  }

  /** `scan_interval_integrate`: one interval as an inner scan of `max_steps` masked iterations. */
  function ScanIntervalIntegrate<F, Y>(takeStep: (F, real, Y, real) -> Y, rhsFunc: F, maxSteps: nat): (Y, Interval) -> (Y, Y)
  {
    (currentY: Y, x: Interval) =>
      var nextY := LaxScan(ScanTakeStep(takeStep, rhsFunc, x.h, x.n), (x.t, currentY), Range(maxSteps)).0.1;
      (nextY, nextY)
  }

  /** `fixed_step_solver_template_jax` before trimming to `t_eval`. */
  function FixedStepSolverTemplateJax<F, Y>(takeStep: (F, real, Y, real) -> Y, rhsFunc: F, tList: seq<real>, y0: Y, maxDt: real): (r: seq<Y>)
    requires maxDt > 0.0 && |tList| >= 2
    ensures |r| == |tList| && r[0] == y0
  {
    var hList := StepSizes(tList, maxDt);
    var nStepsList := StepCounts(tList, maxDt);
    var maxSteps := MaxOf(nStepsList);
    var xs := Zip(tList[..|tList| - 1], hList, nStepsList);
    var ys := LaxScan(ScanIntervalIntegrate(takeStep, rhsFunc, maxSteps), y0, xs).1;
    [y0] + ys
  }

  /**
   * The masked inner scan over steps `k, k+1, ...` (at least up to
   * `n_steps`) takes exactly the `n_steps - k` remaining steps: the masked
   * iterations change nothing.
   */
  lemma {:induction false} MaskedScanTakesSteps<F, Y>(takeStep: (F, real, Y, real) -> Y, rhsFunc: F, h: real, nSteps: int,
                                                       t: real, y: Y, k: int, xs: seq<int>)
    requires forall i :: 0 <= i < |xs| ==> xs[i] == k + i
    requires nSteps <= k + |xs|
    ensures LaxScan(ScanTakeStep(takeStep, rhsFunc, h, nSteps), (t, y), xs).0.1
         == StepsFrom(takeStep, rhsFunc, t, h, nSteps - k, y)
    decreases |xs|
  {
    var f := ScanTakeStep(takeStep, rhsFunc, h, nSteps);
    if |xs| > 0 {
      var first := f((t, y), xs[0]);
      MaskedScanTakesSteps(takeStep, rhsFunc, h, nSteps, t + h, first.0.1, k + 1, xs[1..]);
    }
  }

  /** The outer scan yields the trajectory after `y0`, whenever `max_steps` bounds every count. */
  lemma {:induction false} OuterScanIsTrajectory<F, Y>(takeStep: (F, real, Y, real) -> Y, rhsFunc: F, maxSteps: nat,
                                                       ivs: seq<Interval>, y: Y)
    requires forall i :: 0 <= i < |ivs| ==> ivs[i].n <= maxSteps
    ensures LaxScan(ScanIntervalIntegrate(takeStep, rhsFunc, maxSteps), y, ivs).1
         == Trajectory(takeStep, rhsFunc, ivs, y)[1..]
    decreases |ivs|
  {
    if |ivs| > 0 {
      var iv := ivs[0];
      MaskedScanTakesSteps(takeStep, rhsFunc, iv.h, iv.n, iv.t, y, 0, Range(maxSteps));
      var y1 := StepsFrom(takeStep, rhsFunc, iv.t, iv.h, iv.n, y);
      assert forall i :: 0 <= i < |ivs[1..]| ==> ivs[1..][i].n <= maxSteps by {
        forall i | 0 <= i < |ivs[1..]| ensures ivs[1..][i].n <= maxSteps {
          assert ivs[1..][i] == ivs[i + 1];
        }
      }
      OuterScanIsTrajectory(takeStep, rhsFunc, maxSteps, ivs[1..], y1);
      var ys := Trajectory(takeStep, rhsFunc, ivs, y);
      var rest := Trajectory(takeStep, rhsFunc, ivs[1..], y1);
      assert ys[1..] == rest;
      assert rest == [y1] + rest[1..];
    }
  }

  /**
   * The jax template computes the same values as the sequential template:
   * padding every interval to `max_steps` iterations does not change the
   * results.
   */
  lemma {:induction false} JaxTemplateMatchesSequential<F, Y>(takeStep: (F, real, Y, real) -> Y, rhsFunc: F, tList: seq<real>, y0: Y, maxDt: real)
    requires maxDt > 0.0 && |tList| >= 2
    ensures FixedStepSolverTemplateJax(takeStep, rhsFunc, tList, y0, maxDt)
         == Trajectory(takeStep, rhsFunc, Grid(tList, maxDt), y0)
  {
    var hList := StepSizes(tList, maxDt);
    var nStepsList := StepCounts(tList, maxDt);
    var maxSteps := MaxOf(nStepsList);
    StepSizesValid(tList, maxDt);
    var xs := Zip(tList[..|tList| - 1], hList, nStepsList);
    ZipDropsLast(tList, hList, nStepsList);
    assert nStepsList[0] >= 1;
    OuterScanIsTrajectory(takeStep, rhsFunc, maxSteps, xs, y0);
  }
}
