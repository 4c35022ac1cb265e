// `fixed_step_lmde_solver_parallel_template_jax`: for a linear equation the
// state after each step is a product of per-step propagators, so the solver
// flattens the grid into one list of (time, step) pairs, computes every
// step propagator independently, composes them with a prefix scan under
// `reverse_mul(A, B) = B @ A`, and reads off the breakpoints.
//
// `jax.vmap` and `jax.lax.associative_scan` are modelled by their
// sequential meaning. The three-term associativity of `reverse_mul` on
// d x d matrices is proved (`ReverseMulAssociative`) and gives the split of
// a scan into two halves (`ScanSplit`); the full tree bracketing is not
// modelled, and the templates' contracts rest on the sequential scan alone.
module ParallelTemplate {
  import opened Matrices
  import opened FixedStepGrid
  import opened FixedStepTemplates
  import opened ExponentialStep
  import opened ParallelLayout

  /**
   * A prefix scan's sequential meaning: entry `k` combines entries
   * `0..k` from the left, `r[k] = fn(r[k - 1], xs[k])`.
   */
  function AssociativeScan<T>(fn: (T, T) -> T, xs: seq<T>): (r: seq<T>)
    ensures |r| == |xs|
    decreases |xs|
  {
    if |xs| == 0 then []
    else
      var p := AssociativeScan(fn, xs[..|xs| - 1]);
      if |p| == 0 then [xs[0]] else p + [fn(p[|p| - 1], xs[|xs| - 1])]
  }

  /** Entry by entry: the first is `xs[0]`, each next one folds in one more element. */
  lemma {:induction false} AssociativeScanAt<T>(fn: (T, T) -> T, xs: seq<T>)
    ensures var r := AssociativeScan(fn, xs);
      && (|xs| > 0 ==> r[0] == xs[0])
      && forall k :: 1 <= k < |xs| ==> r[k] == fn(r[k - 1], xs[k])
    decreases |xs|
  {
    if |xs| > 1 {
      var ys := xs[..|xs| - 1];
      AssociativeScanAt(fn, ys);
      assert forall k :: 0 <= k < |ys| ==> ys[k] == xs[k];
    }
  }

  /** `reverse_mul(A, B) = B @ A`. */
  function ReverseMul(a: Matrix, b: Matrix): Matrix
  {
    MatMul(b, a)
  }

  /** `reverse_mul` is associative on d x d matrices, as `associative_scan` requires. */
  lemma {:induction false} ReverseMulAssociative(a: Matrix, b: Matrix, c: Matrix, d: nat)
    requires IsMatrix(a, d, d) && IsMatrix(b, d, d) && IsMatrix(c, d, d)
    ensures ReverseMul(ReverseMul(a, b), c) == ReverseMul(a, ReverseMul(b, c))
  {
    MatMulAssoc(c, b, a, d, d);
  }

  /** A scan of d x d matrices under `reverse_mul` yields d x d matrices. */
  lemma {:induction false} ScanOfSquares(xs: seq<Matrix>, d: nat, k: int)
    requires forall i :: 0 <= i < |xs| ==> IsMatrix(xs[i], d, d)
    requires 0 <= k < |xs|
    ensures IsMatrix(AssociativeScan(ReverseMul, xs)[k], d, d)
    decreases k
  {
    AssociativeScanAt(ReverseMul, xs);
    if k > 0 {
      ScanOfSquares(xs, d, k - 1);
      MatMulSquare(xs[k], AssociativeScan(ReverseMul, xs)[k - 1], d);
    }
  }

  /** The scan of `xs + ys` begins with the scan of `xs`. */
  lemma {:induction false} ScanPrefix<T>(fn: (T, T) -> T, xs: seq<T>, ys: seq<T>, i: int)
    requires 0 <= i < |xs|
    ensures AssociativeScan(fn, xs + ys)[i] == AssociativeScan(fn, xs)[i]
    decreases i
  {
    AssociativeScanAt(fn, xs + ys);
    AssociativeScanAt(fn, xs);
    if i > 0 {
      ScanPrefix(fn, xs, ys, i - 1);
      assert (xs + ys)[i] == xs[i];
    }
  }

  /**
   * Splitting a scan of d x d matrices: entry `|xs| + k` of the scan of
   * `xs + ys` is the product of all of `xs` combined with entry `k` of the
   * scan of `ys` alone. This is the step by which a tree-bracketed
   * `associative_scan` combines two halves, and it holds by associativity.
   */
  lemma {:induction false} ScanSplit(xs: seq<Matrix>, ys: seq<Matrix>, d: nat, k: int)
    requires |xs| > 0 && 0 <= k < |ys|
    requires forall i :: 0 <= i < |xs| ==> IsMatrix(xs[i], d, d)
    requires forall i :: 0 <= i < |ys| ==> IsMatrix(ys[i], d, d)
    ensures AssociativeScan(ReverseMul, xs + ys)[|xs| + k]
         == ReverseMul(AssociativeScan(ReverseMul, xs)[|xs| - 1], AssociativeScan(ReverseMul, ys)[k])
    decreases k
  {
    var whole := AssociativeScan(ReverseMul, xs + ys);
    var left := AssociativeScan(ReverseMul, xs);
    var right := AssociativeScan(ReverseMul, ys);
    AssociativeScanAt(ReverseMul, xs + ys);
    AssociativeScanAt(ReverseMul, ys);
    assert (xs + ys)[|xs| + k] == ys[k];
    if k == 0 {
      ScanPrefix(ReverseMul, xs, ys, |xs| - 1);
    } else {
      ScanSplit(xs, ys, d, k - 1);
      ScanOfSquares(xs, d, |xs| - 1);
      ScanOfSquares(ys, d, k - 1);
      ReverseMulAssociative(left[|xs| - 1], right[k - 1], ys[k], d);
    }
  }

  /** Every entry of a scan, as a 2-D (matrix) state. */
  function MatStates(scan: seq<Matrix>): (qs: seq<State>)
    ensures |qs| == |scan| && forall k :: 0 <= k < |scan| ==> qs[k] == Mat(scan[k])
  {
    seq(|scan|, k requires 0 <= k < |scan| => Mat(scan[k]))
  }

  /** `y0` followed by every entry of a scan applied to `y0`. */
  function AppliedStates(scan: seq<Matrix>, y0: State): (qs: seq<State>)
    ensures |qs| == |scan| + 1 && qs[0] == y0
    ensures forall k :: 0 <= k < |scan| ==> qs[k + 1] == Apply(scan[k], y0)
  {
    [y0] + seq(|scan|, k requires 0 <= k < |scan| => Apply(scan[k], y0))
  }

  /** The scanned products of `[y0] + step_propagators` advance by one step each. */
  lemma {:induction false} SquareScanSteps(propagator: Propagator, generator: Generator, ivs: seq<Interval>,
                        y0: Matrix, props: seq<Matrix>)
    requires |props| == |FlatTimes(ivs)| && |FlatSteps(ivs)| == |FlatTimes(ivs)|
    requires forall k :: 0 <= k < |props| ==> props[k] == propagator(generator, FlatTimes(ivs)[k], FlatSteps(ivs)[k])
    ensures var qs := MatStates(AssociativeScan(ReverseMul, [y0] + props));
      && |qs| == |FlatTimes(ivs)| + 1 && qs[0] == Mat(y0)
      && forall k {:trigger FlatTimes(ivs)[k]} :: 0 <= k < |FlatTimes(ivs)| ==>
           qs[k + 1] == TakeStepOf(propagator)(generator, FlatTimes(ivs)[k], qs[k], FlatSteps(ivs)[k])
  {
    var xs := [y0] + props;
    var scan := AssociativeScan(ReverseMul, xs);
    var qs := MatStates(scan);
    AssociativeScanAt(ReverseMul, xs);
    forall k | 0 <= k < |FlatTimes(ivs)|
      ensures qs[k + 1] == TakeStepOf(propagator)(generator, FlatTimes(ivs)[k], qs[k], FlatSteps(ivs)[k])
    {
      assert xs[k + 1] == props[k];
      assert scan[k + 1] == ReverseMul(scan[k], xs[k + 1]);
      ScanStepIsTakeStep(propagator, generator, FlatTimes(ivs)[k], FlatSteps(ivs)[k], scan[k], scan[k + 1]);
    }
  }

  /** One scan step composing with the step propagator is one step of the sequential template. */
  lemma {:induction false} ScanStepIsTakeStep(propagator: Propagator, generator: Generator, t: real, h: real, prev: Matrix, next: Matrix)
    requires next == ReverseMul(prev, propagator(generator, t, h))
    ensures Mat(next) == TakeStepOf(propagator)(generator, t, Mat(prev), h)
  {
  }

  /** `vmap(lambda t, h: take_step(generator, t, h))(all_times, all_h)`: one propagator per step. */
  function StepPropagators(propagator: Propagator, generator: Generator, times: seq<real>, steps: seq<real>): (ps: seq<Matrix>)
    requires |steps| == |times|
    ensures |ps| == |times| && forall k :: 0 <= k < |times| ==> ps[k] == propagator(generator, times[k], steps[k])
  {
    seq(|times|, k requires 0 <= k < |times| => propagator(generator, times[k], steps[k]))
  }

  /** Propagators that are all d x d give d x d step propagators. */
  lemma {:induction false} StepPropagatorShapes(propagator: Propagator, generator: Generator, times: seq<real>, steps: seq<real>, d: nat)
    requires |steps| == |times|
    requires forall t: real, h: real :: IsMatrix(propagator(generator, t, h), d, d)
    ensures forall k :: 0 <= k < |times| ==> IsMatrix(StepPropagators(propagator, generator, times, steps)[k], d, d)
  {
    var ps := StepPropagators(propagator, generator, times, steps);
    forall k | 0 <= k < |times|
      ensures IsMatrix(ps[k], d, d)
    {
      PropagatorShapeAt(propagator, generator, times[k], steps[k], d);
    }
  }

  lemma {:induction false} PropagatorShapeAt(propagator: Propagator, generator: Generator, t: real, h: real, d: nat)
    requires forall t: real, h: real :: IsMatrix(propagator(generator, t, h), d, d)
    ensures IsMatrix(propagator(generator, t, h), d, d)
  {
  }

  /** `intermediate_props[t_list_locations]`: the scan entries at the breakpoints. */
  function ReadLocations(scan: seq<Matrix>, locs: seq<int>): (ys: seq<State>)
    requires forall i :: 0 <= i < |locs| ==> 0 <= locs[i] < |scan|
    ensures |ys| == |locs| && forall i :: 0 <= i < |locs| ==> ys[i] == Mat(scan[locs[i]])
  {
    seq(|locs|, i requires 0 <= i < |locs| => Mat(scan[locs[i]]))
  }

  /**
   * `y0` followed by `intermediate_props[t_list_locations[1:] - 1] @ y0`:
   * the scan of the step propagators alone is shifted by one.
   */
  function ApplyAtLocations(scan: seq<Matrix>, locs: seq<int>, y0: State): (ys: seq<State>)
    requires |locs| >= 1 && forall i :: 1 <= i < |locs| ==> 0 <= locs[i] - 1 < |scan|
    ensures |ys| == |locs| && ys[0] == y0
    ensures forall i :: 1 <= i < |locs| ==> ys[i] == Apply(scan[locs[i] - 1], y0)
  {
    [y0] + seq(|locs| - 1, i requires 0 <= i < |locs| - 1 => Apply(scan[locs[i + 1] - 1], y0))
  }

  /**
   * Square `y0`: scanning `[y0] + step_propagators` and reading the
   * breakpoints gives the states of the sequential template.
   */
  lemma {:induction false} SquareScanIsTrajectory(propagator: Propagator, generator: Generator, ivs: seq<Interval>, y0: Matrix)
    requires forall i :: 0 <= i < |ivs| ==> ivs[i].n >= 0
    ensures var props := StepPropagators(propagator, generator, FlatTimes(ivs), FlatSteps(ivs));
      var scan := AssociativeScan(ReverseMul, [y0] + props);
      && (forall i :: 0 <= i <= |ivs| ==> 0 <= Locs(ivs)[i] < |scan|)
      && ReadLocations(scan, Locs(ivs)) == Trajectory(TakeStepOf(propagator), generator, ivs, Mat(y0))
  {
    var props := StepPropagators(propagator, generator, FlatTimes(ivs), FlatSteps(ivs));
    var scan := AssociativeScan(ReverseMul, [y0] + props);
    var tr := Trajectory(TakeStepOf(propagator), generator, ivs, Mat(y0));
    FlatLengths(ivs);
    SquareScanSteps(propagator, generator, ivs, y0, props);
    forall i | 0 <= i <= |ivs|
      ensures 0 <= Locs(ivs)[i] < |scan| && Mat(scan[Locs(ivs)[i]]) == tr[i]
    {
      SquareScanAtBreakpoint(propagator, generator, ivs, y0, scan, i);
    }
    var ys := ReadLocations(scan, Locs(ivs));
    assert forall i :: 0 <= i < |ys| ==> ys[i] == tr[i];
  }

  /** One breakpoint `i`: entry `locs[i]` of a scan whose entries, as states, follow the steps. */
  lemma {:induction false} SquareScanAtBreakpoint(propagator: Propagator, generator: Generator, ivs: seq<Interval>,
                               y0: Matrix, scan: seq<Matrix>, i: int)
    requires forall i :: 0 <= i < |ivs| ==> ivs[i].n >= 0
    requires var qs := MatStates(scan);
      && |qs| == |FlatTimes(ivs)| + 1 && |FlatSteps(ivs)| == |FlatTimes(ivs)| && qs[0] == Mat(y0)
      && forall k {:trigger FlatTimes(ivs)[k]} :: 0 <= k < |FlatTimes(ivs)| ==>
        qs[k + 1] == TakeStepOf(propagator)(generator, FlatTimes(ivs)[k], qs[k], FlatSteps(ivs)[k])
    requires 0 <= i <= |ivs|
    ensures 0 <= Locs(ivs)[i] < |scan|
    ensures Mat(scan[Locs(ivs)[i]]) == Trajectory(TakeStepOf(propagator), generator, ivs, Mat(y0))[i]
  {
    LocationsFollowTrajectory(TakeStepOf(propagator), generator, ivs, Mat(y0), MatStates(scan), i);
  }

  /** Applying the scanned step propagators to `y0` advances by one step each. */
  lemma {:induction false} ScanThenApplySteps(propagator: Propagator, generator: Generator, ivs: seq<Interval>,
                           y0: State, props: seq<Matrix>, d: nat)
    requires Conforms(y0, d)
    requires |props| == |FlatTimes(ivs)| && |FlatSteps(ivs)| == |FlatTimes(ivs)|
    requires forall k :: 0 <= k < |props| ==> props[k] == propagator(generator, FlatTimes(ivs)[k], FlatSteps(ivs)[k])
    requires forall k :: 0 <= k < |props| ==> IsMatrix(props[k], d, d)
    ensures var qs := AppliedStates(AssociativeScan(ReverseMul, props), y0);
      forall k {:trigger FlatTimes(ivs)[k]} :: 0 <= k < |FlatTimes(ivs)| ==>
        qs[k + 1] == TakeStepOf(propagator)(generator, FlatTimes(ivs)[k], qs[k], FlatSteps(ivs)[k])
  {
    var scan := AssociativeScan(ReverseMul, props);
    var qs := AppliedStates(scan, y0);
    AssociativeScanAt(ReverseMul, props);
    forall k | 0 <= k < |FlatTimes(ivs)|
      ensures qs[k + 1] == TakeStepOf(propagator)(generator, FlatTimes(ivs)[k], qs[k], FlatSteps(ivs)[k])
    {
      if k > 0 {
        ScanOfSquares(props, d, k - 1);
        ApplyAssoc(props[k], scan[k - 1], y0, d);
      }
    }
  }

  /** One breakpoint `i >= 1`: entry `locs[i] - 1` of a scan whose applied states follow the steps. */
  lemma {:induction false} ScanEntryAtBreakpoint(propagator: Propagator, generator: Generator, ivs: seq<Interval>,
                              y0: State, scan: seq<Matrix>, i: int)
    requires forall i :: 0 <= i < |ivs| ==> ivs[i].n >= 1
    requires |scan| == |FlatTimes(ivs)| && |FlatSteps(ivs)| == |FlatTimes(ivs)|
    requires var qs := AppliedStates(scan, y0);
      forall k {:trigger FlatTimes(ivs)[k]} :: 0 <= k < |FlatTimes(ivs)| ==>
        qs[k + 1] == TakeStepOf(propagator)(generator, FlatTimes(ivs)[k], qs[k], FlatSteps(ivs)[k])
    requires 1 <= i <= |ivs|
    ensures 0 <= Locs(ivs)[i] - 1 < |scan|
    ensures Apply(scan[Locs(ivs)[i] - 1], y0) == Trajectory(TakeStepOf(propagator), generator, ivs, y0)[i]
  {
    var qs := AppliedStates(scan, y0);
    LocationsFollowTrajectory(TakeStepOf(propagator), generator, ivs, y0, qs, i);
    LocsPositive(ivs, i);
  }

  /** Any other `y0`: breakpoint `i >= 1` is entry `locs[i] - 1` of the scan applied to `y0`. */
  lemma {:induction false} ScanThenApplyAt(propagator: Propagator, generator: Generator, ivs: seq<Interval>,
                        y0: State, props: seq<Matrix>, d: nat)
    requires forall i :: 0 <= i < |ivs| ==> ivs[i].n >= 1
    requires Conforms(y0, d)
    requires |props| == |FlatTimes(ivs)|
    requires forall k :: 0 <= k < |props| ==> props[k] == propagator(generator, FlatTimes(ivs)[k], FlatSteps(ivs)[k])
    requires forall k :: 0 <= k < |props| ==> IsMatrix(props[k], d, d)
    ensures var scan := AssociativeScan(ReverseMul, props);
      forall i :: 1 <= i <= |ivs| ==>
        && 0 <= Locs(ivs)[i] - 1 < |scan|
        && Apply(scan[Locs(ivs)[i] - 1], y0) == Trajectory(TakeStepOf(propagator), generator, ivs, y0)[i]
  {
    var scan := AssociativeScan(ReverseMul, props);
    FlatLengths(ivs);
    ScanThenApplySteps(propagator, generator, ivs, y0, props, d);
    forall i | 1 <= i <= |ivs|
      ensures 0 <= Locs(ivs)[i] - 1 < |scan|
      ensures Apply(scan[Locs(ivs)[i] - 1], y0) == Trajectory(TakeStepOf(propagator), generator, ivs, y0)[i]
    {
      ScanEntryAtBreakpoint(propagator, generator, ivs, y0, scan, i);
    }
  }

  /** Any other `y0`, for a given list of step propagators: the values read off equal the trajectory. */
  lemma {:induction false} ScanThenApplyMatches(propagator: Propagator, generator: Generator, ivs: seq<Interval>,
                             y0: State, props: seq<Matrix>, d: nat)
    requires forall i :: 0 <= i < |ivs| ==> ivs[i].n >= 1
    requires Conforms(y0, d)
    requires |props| == |FlatTimes(ivs)|
    requires forall k :: 0 <= k < |props| ==> props[k] == propagator(generator, FlatTimes(ivs)[k], FlatSteps(ivs)[k])
    requires forall k :: 0 <= k < |props| ==> IsMatrix(props[k], d, d)
    ensures var scan := AssociativeScan(ReverseMul, props);
      && (forall i :: 1 <= i <= |ivs| ==> 0 <= Locs(ivs)[i] - 1 < |scan|)
      && ApplyAtLocations(scan, Locs(ivs), y0) == Trajectory(TakeStepOf(propagator), generator, ivs, y0)
  {
    var scan := AssociativeScan(ReverseMul, props);
    var tr := Trajectory(TakeStepOf(propagator), generator, ivs, y0);
    ScanThenApplyAt(propagator, generator, ivs, y0, props, d);
    var ys := ApplyAtLocations(scan, Locs(ivs), y0);
    assert tr[0] == y0 by {
      TrajectoryAt(TakeStepOf(propagator), generator, ivs, y0);
    }
    assert forall i :: 0 <= i < |ys| ==> ys[i] == tr[i];
  }

  /**
   * Any other `y0`: scanning the step propagators alone, applying entry
   * `locs[i] - 1` to `y0` for every breakpoint `i >= 1` and prepending `y0`
   * gives the states of the sequential template; this needs the
   * associativity of the products, so every propagator is d x d for the
   * d rows of `y0`.
   */
  lemma {:induction false} ScanThenApplyIsTrajectory(propagator: Propagator, generator: Generator, ivs: seq<Interval>, y0: State, d: nat)
    requires forall i :: 0 <= i < |ivs| ==> ivs[i].n >= 1
    requires Conforms(y0, d)
    requires forall t: real, h: real :: IsMatrix(propagator(generator, t, h), d, d)
    ensures var props := StepPropagators(propagator, generator, FlatTimes(ivs), FlatSteps(ivs));
      var scan := AssociativeScan(ReverseMul, props);
      && (forall i :: 1 <= i <= |ivs| ==> 0 <= Locs(ivs)[i] - 1 < |scan|)
      && ApplyAtLocations(scan, Locs(ivs), y0) == Trajectory(TakeStepOf(propagator), generator, ivs, y0)
  {
    var props := StepPropagators(propagator, generator, FlatTimes(ivs), FlatSteps(ivs));
    StepPropagatorShapes(propagator, generator, FlatTimes(ivs), FlatSteps(ivs), d);
    ScanThenApplyMatches(propagator, generator, ivs, y0, props, d);
  }

  /**
   * `fixed_step_lmde_solver_parallel_template_jax` before trimming to
   * `t_eval`, with `take_step` the propagator rule: the grid, the flat step
   * lists, every step propagator, their prefix scan, and the states at the
   * breakpoints, by the square or the non-square branch. It computes the
   * sequential template's values for the step rule `propagator @ y`. The
   * non-square branch needs matching shapes, which the source leaves to
   * `@` to enforce.
   */
  method ParallelSolverTemplate(propagator: Propagator, generator: Generator, tList: seq<real>, y0: State, maxDt: real)
    returns (ys: seq<State>)
    requires maxDt > 0.0
    requires !IsSquareState(y0) ==>
      Conforms(y0, Rows(y0)) && forall t: real, h: real :: IsMatrix(propagator(generator, t, h), Rows(y0), Rows(y0))
    ensures ys == Trajectory(TakeStepOf(propagator), generator, Grid(tList, maxDt), y0)
  {
    var hList, nStepsList := GetFixedStepSizes(tList, maxDt);
    ghost var ivs := Grid(tList, maxDt);
    GridStepCounts(tList, maxDt);
    FlatLengths(ivs);
    var allTimes, allH, locs := StepTimes(tList, hList, nStepsList);
    var stepProps := StepPropagators(propagator, generator, allTimes, allH);
    if y0.Mat? && |y0.m| == Cols(y0.m) {
      var intermediateProps := AssociativeScan(ReverseMul, [y0.m] + stepProps);
      SquareScanIsTrajectory(propagator, generator, ivs, y0.m);
      ys := ReadLocations(intermediateProps, locs);
    } else {
      var intermediateProps := AssociativeScan(ReverseMul, stepProps);
      ScanThenApplyIsTrajectory(propagator, generator, ivs, y0, Rows(y0));
      ys := ApplyAtLocations(intermediateProps, locs, y0);
    }
  }
}
