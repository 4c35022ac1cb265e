// The bookkeeping of `fixed_step_lmde_solver_parallel_template_jax`: the
// grid flattened into one list of step times (`all_times`), one of step
// sizes (`all_h`) and the flat position of every breakpoint
// (`t_list_locations`), and why per-step states laid out along that list
// meet the sequential trajectory at those positions.
module ParallelLayout {
  import opened FixedStepTemplates

  /** `t_list_locations`: 0, then each entry adds the next interval's step count. */
  predicate Locations(ivs: seq<Interval>, locs: seq<int>)
  {
    && |locs| == |ivs| + 1
    && locs[0] == 0
    && forall i :: 0 <= i < |ivs| ==> locs[i + 1] == locs[i] + ivs[i].n
  }

  /** `np.arange(n)` is empty for `n <= 0`. */
  function Count(n: int): nat
  {
    if n < 0 then 0 else n
  }

  /** The time of step `j` of an interval: `t + h * j`. */
  function StepTime(iv: Interval, j: int): real
  {
    TimeAt(iv.t, iv.h, j)
  }

  /** `t + h * np.arange(n_steps)`: the times of the steps of one interval. */
  function IntervalTimes(iv: Interval): (r: seq<real>)
    ensures |r| == Count(iv.n)
  {
    seq(Count(iv.n), j requires 0 <= j < Count(iv.n) => StepTime(iv, j))
  }

  /** `h * np.ones(n_steps)`: the sizes of the steps of one interval. */
  function IntervalSteps(iv: Interval): (r: seq<real>)
    ensures |r| == Count(iv.n)
  {
    seq(Count(iv.n), j requires 0 <= j < Count(iv.n) => iv.h)
  }

  /** `all_times` after the intervals `ivs`. */
  function FlatTimes(ivs: seq<Interval>): seq<real>
    decreases |ivs|
  {
    if |ivs| == 0 then [] else FlatTimes(ivs[..|ivs| - 1]) + IntervalTimes(ivs[|ivs| - 1])
  }

  /** `all_h` after the intervals `ivs`. */
  function FlatSteps(ivs: seq<Interval>): (r: seq<real>)
    ensures |r| == |FlatTimes(ivs)|
    decreases |ivs|
  {
    if |ivs| == 0 then [] else FlatSteps(ivs[..|ivs| - 1]) + IntervalSteps(ivs[|ivs| - 1])
  }

  /** `t_list_locations` after the intervals `ivs`. */
  function Locs(ivs: seq<Interval>): (r: seq<int>)
    ensures |r| == |ivs| + 1
    decreases |ivs|
  {
    if |ivs| == 0 then [0] else
      var p := Locs(ivs[..|ivs| - 1]);
      p + [p[|p| - 1] + ivs[|ivs| - 1].n]
  }

  /** `(a + b)[|a|..] == b`. */
  lemma {:induction false} SliceOfSuffix<T>(a: seq<T>, b: seq<T>)
    ensures (a + b)[|a|..|a| + |b|] == b
  {
  }

  /** `(a + b)[x..y] == a[x..y]` inside `a`. */
  lemma {:induction false} SliceOfPrefix<T>(a: seq<T>, b: seq<T>, x: int, y: int)
    requires 0 <= x <= y <= |a|
    ensures (a + b)[x..y] == a[x..y]
  {
  }

  /** The three bookkeeping lists hold exactly the steps and locations of `ivs`. */
  predicate Built(ivs: seq<Interval>, allTimes: seq<real>, allH: seq<real>, locs: seq<int>)
  {
    allTimes == FlatTimes(ivs) && allH == FlatSteps(ivs) && locs == Locs(ivs)
  }

  /** One pass of the bookkeeping loop: interval `i` appended to the lists built for the ones before it. */
  lemma {:induction false} BuiltNext(ivs: seq<Interval>, i: int, allTimes: seq<real>, allH: seq<real>, locs: seq<int>)
    requires 0 <= i < |ivs| && Built(ivs[..i], allTimes, allH, locs)
    ensures Built(ivs[..i + 1], allTimes + IntervalTimes(ivs[i]), allH + IntervalSteps(ivs[i]),
                  locs + [locs[|locs| - 1] + ivs[i].n])
  {
    var done := ivs[..i];
    assert ivs[..i + 1] == done + [ivs[i]];
    assert (done + [ivs[i]])[..|done|] == done;
  }

  /**
   * The bookkeeping loop: `all_times`, `all_h` and `t_list_locations`
   * built interval by interval from `zip(t_list, h_list, n_steps_list)`.
   */
  method StepTimes(tList: seq<real>, hList: seq<real>, nStepsList: seq<int>)
    returns (allTimes: seq<real>, allH: seq<real>, locs: seq<int>)
    ensures var ivs := Zip(tList, hList, nStepsList);
      allTimes == FlatTimes(ivs) && allH == FlatSteps(ivs) && locs == Locs(ivs)
  {
    ghost var ivs := Zip(tList, hList, nStepsList);
    allTimes, allH, locs := [], [], [0];
    var i := 0;
    while i < |tList| && i < |hList| && i < |nStepsList|
      invariant 0 <= i <= |ivs| && Built(ivs[..i], allTimes, allH, locs)
    {
      var t, h, nSteps := tList[i], hList[i], nStepsList[i];
      assert ivs[i] == Interval(t, h, nSteps);
      BuiltNext(ivs, i, allTimes, allH, locs);
      allTimes := allTimes + IntervalTimes(Interval(t, h, nSteps));
      allH := allH + IntervalSteps(Interval(t, h, nSteps));
      locs := locs + [locs[|locs| - 1] + nSteps];
      i := i + 1;
    }
    assert ivs[..i] == ivs;
  }

  /** The locations are the prefix sums of the step counts, never decreasing. */
  lemma {:induction false} LocsArePrefixSums(ivs: seq<Interval>)
    requires forall i :: 0 <= i < |ivs| ==> ivs[i].n >= 0
    ensures Locations(ivs, Locs(ivs))
    ensures forall i :: 0 <= i <= |ivs| ==> 0 <= Locs(ivs)[i] <= Locs(ivs)[|ivs|]
    decreases |ivs|
  {
    if |ivs| > 0 {
      var m := |ivs| - 1;
      var p := ivs[..m];
      LocsArePrefixSums(p);
      var locs := Locs(ivs);
      forall i | 0 <= i < |ivs|
        ensures locs[i + 1] == locs[i] + ivs[i].n
      {
        if i < m {
          assert p[i] == ivs[i];
        }
      }
    }
  }

  /** Both flat lists have one entry per step. */
  lemma {:induction false} FlatLengths(ivs: seq<Interval>)
    requires forall i :: 0 <= i < |ivs| ==> ivs[i].n >= 0
    ensures |FlatTimes(ivs)| == |FlatSteps(ivs)| == Locs(ivs)[|ivs|]
    decreases |ivs|
  {
    if |ivs| > 0 {
      var m := |ivs| - 1;
      assert forall i :: 0 <= i < m ==> ivs[..m][i] == ivs[i];
      FlatLengths(ivs[..m]);
    }
  }

  /** The last interval's steps are the tail of the flat lists. */
  lemma {:induction false} FlatSliceLast(ivs: seq<Interval>)
    requires |ivs| > 0
    ensures var m := |ivs| - 1;
      var lp := Locs(ivs[..m]);
      && FlatTimes(ivs) == FlatTimes(ivs[..m]) + IntervalTimes(ivs[m])
      && FlatSteps(ivs) == FlatSteps(ivs[..m]) + IntervalSteps(ivs[m])
      && Locs(ivs) == lp + [lp[m] + ivs[m].n]
  {
  }

  /** The layout of interval `i`: its block of flat positions holds its times and sizes. */
  predicate SliceAt(ivs: seq<Interval>, i: int)
    requires 0 <= i < |ivs|
  {
    var locs := Locs(ivs);
    && 0 <= locs[i] <= locs[i + 1] <= |FlatTimes(ivs)| == |FlatSteps(ivs)|
    && FlatTimes(ivs)[locs[i]..locs[i + 1]] == IntervalTimes(ivs[i])
    && FlatSteps(ivs)[locs[i]..locs[i + 1]] == IntervalSteps(ivs[i])
  }

  /** Appending an interval keeps the layout of the earlier ones. */
  lemma {:induction false} SliceAtEarlier(ivs: seq<Interval>, i: int)
    requires forall i :: 0 <= i < |ivs| ==> ivs[i].n >= 0
    requires 0 <= i < |ivs| - 1 && SliceAt(ivs[..|ivs| - 1], i)
    ensures SliceAt(ivs, i)
  {
    var m := |ivs| - 1;
    var p := ivs[..m];
    FlatSliceLast(ivs);
    assert forall j :: 0 <= j < m ==> p[j] == ivs[j];
    FlatLengths(p);
    FlatLengths(ivs);
    assert Locs(ivs)[i] == Locs(p)[i] && Locs(ivs)[i + 1] == Locs(p)[i + 1];
    SliceOfPrefix(FlatTimes(p), IntervalTimes(ivs[m]), Locs(p)[i], Locs(p)[i + 1]);
    SliceOfPrefix(FlatSteps(p), IntervalSteps(ivs[m]), Locs(p)[i], Locs(p)[i + 1]);
  }

  /** The last interval's block is the tail of the flat lists. */
  lemma {:induction false} SliceAtLast(ivs: seq<Interval>)
    requires forall i :: 0 <= i < |ivs| ==> ivs[i].n >= 0
    requires |ivs| > 0
    ensures SliceAt(ivs, |ivs| - 1)
  {
    var m := |ivs| - 1;
    var p := ivs[..m];
    FlatSliceLast(ivs);
    assert forall j :: 0 <= j < m ==> p[j] == ivs[j];
    FlatLengths(p);
    FlatLengths(ivs);
    var lp := Locs(p);
    assert Locs(ivs)[m] == lp[m] == |FlatTimes(p)| == |FlatSteps(p)|;
    assert Locs(ivs)[m + 1] == |FlatTimes(p)| + |IntervalTimes(ivs[m])|;
    SliceOfSuffix(FlatTimes(p), IntervalTimes(ivs[m]));
    SliceOfSuffix(FlatSteps(p), IntervalSteps(ivs[m]));
  }

  /**
   * The steps of interval `i` occupy the flat positions from `locs[i]` up
   * to `locs[i + 1]`: there `all_times` holds `t_i + h_i * arange(n_i)` and
   * `all_h` holds `n_i` copies of `h_i`.
   */
  lemma {:induction false} FlatSlices(ivs: seq<Interval>, i: int)
    requires forall i :: 0 <= i < |ivs| ==> ivs[i].n >= 0
    requires 0 <= i < |ivs|
    ensures SliceAt(ivs, i)
    decreases |ivs|
  {
    var m := |ivs| - 1;
    if i < m {
      var p := ivs[..m];
      assert forall j :: 0 <= j < m ==> p[j] == ivs[j];
      FlatSlices(p, i);
      SliceAtEarlier(ivs, i);
    } else {
      SliceAtLast(ivs);
    }
  }

  /**
   * Along one interval's block of the flat lists, the per-step states are
   * the interval's steps: `n` steps after `base` lie `n` applications of the
   * step rule further.
   */
  lemma {:induction false} StepsAlongBlock<F, Y>(takeStep: (F, real, Y, real) -> Y, rhsFunc: F, qs: seq<Y>,
                                                 times: seq<real>, steps: seq<real>, base: int, end: int,
                                                 iv: Interval, n: nat)
    requires |qs| == |times| + 1 && |steps| == |times|
    requires forall k {:trigger times[k]} :: 0 <= k < |times| ==> qs[k + 1] == takeStep(rhsFunc, times[k], qs[k], steps[k])
    requires 0 <= base <= end <= |times| && end == base + Count(iv.n) && n <= Count(iv.n)
    requires times[base..end] == IntervalTimes(iv)
    requires steps[base..end] == IntervalSteps(iv)
    ensures qs[base + n] == StepsFrom(takeStep, rhsFunc, iv.t, iv.h, n, qs[base])
    decreases n
  {
    if n > 0 {
      var y := qs[base];
      StepsAtTimes(takeStep, rhsFunc, iv.t, iv.h, n, y);
      StepsAlongBlock(takeStep, rhsFunc, qs, times, steps, base, end, iv, n - 1);
      var k := base + n - 1;
      assert times[k] == times[base..end][n - 1] == StepTime(iv, n - 1);
      assert steps[k] == steps[base..end][n - 1] == iv.h;
      assert qs[k + 1] == takeStep(rhsFunc, times[k], qs[k], steps[k]);
    }
  }

  /** Per-step states that follow the flat step list run through interval `i` from its location. */
  lemma {:induction false} BlockFromLocation<F, Y>(takeStep: (F, real, Y, real) -> Y, rhsFunc: F,
                                ivs: seq<Interval>, qs: seq<Y>, i: int)
    requires forall i :: 0 <= i < |ivs| ==> ivs[i].n >= 0
    requires |qs| == |FlatTimes(ivs)| + 1 && |FlatSteps(ivs)| == |FlatTimes(ivs)|
    requires forall k {:trigger FlatTimes(ivs)[k]} :: 0 <= k < |FlatTimes(ivs)| ==>
      qs[k + 1] == takeStep(rhsFunc, FlatTimes(ivs)[k], qs[k], FlatSteps(ivs)[k])
    requires 0 <= i < |ivs|
    ensures var base, iv := Locs(ivs)[i], ivs[i];
      && 0 <= base && base + iv.n < |qs|
      && qs[base + iv.n] == StepsFrom(takeStep, rhsFunc, iv.t, iv.h, iv.n, qs[base])
  {
    var base, end, iv := Locs(ivs)[i], Locs(ivs)[i + 1], ivs[i];
    assert end == base + iv.n && Count(iv.n) == iv.n by {
      LocsArePrefixSums(ivs);
    }
    assert qs[base + iv.n] == StepsFrom(takeStep, rhsFunc, iv.t, iv.h, iv.n, qs[base]) by {
      FlatSlices(ivs, i);
      StepsAlongBlock(takeStep, rhsFunc, qs, FlatTimes(ivs), FlatSteps(ivs), base, end, iv, iv.n);
    }
  }

  /**
   * Per-step states that follow the flat step list reach, at the location
   * of breakpoint `i`, the sequential trajectory's value there.
   */
  lemma {:induction false} LocationsFollowTrajectory<F, Y>(takeStep: (F, real, Y, real) -> Y, rhsFunc: F,
                                                           ivs: seq<Interval>, y0: Y, qs: seq<Y>, i: int)
    requires forall i :: 0 <= i < |ivs| ==> ivs[i].n >= 0
    requires |qs| == |FlatTimes(ivs)| + 1 && |FlatSteps(ivs)| == |FlatTimes(ivs)| && qs[0] == y0
    requires forall k {:trigger FlatTimes(ivs)[k]} :: 0 <= k < |FlatTimes(ivs)| ==>
      qs[k + 1] == takeStep(rhsFunc, FlatTimes(ivs)[k], qs[k], FlatSteps(ivs)[k])
    requires 0 <= i <= |ivs|
    ensures 0 <= Locs(ivs)[i] < |qs| && qs[Locs(ivs)[i]] == Trajectory(takeStep, rhsFunc, ivs, y0)[i]
    decreases i
  {
    var tr := Trajectory(takeStep, rhsFunc, ivs, y0);
    if i == 0 {
      assert Locs(ivs)[0] == 0 && tr[0] == y0 by {
        LocsArePrefixSums(ivs);
        TrajectoryAt(takeStep, rhsFunc, ivs, y0);
      }
    } else {
      var iv := ivs[i - 1];
      var base := Locs(ivs)[i - 1];
      assert 0 <= base < |qs| && qs[base] == tr[i - 1] by {
        LocationsFollowTrajectory(takeStep, rhsFunc, ivs, y0, qs, i - 1);
      }
      assert Locs(ivs)[i] == base + iv.n by {
        LocsArePrefixSums(ivs);
      }
      assert tr[i] == StepsFrom(takeStep, rhsFunc, iv.t, iv.h, iv.n, tr[i - 1]) by {
        TrajectoryAt(takeStep, rhsFunc, ivs, y0);
      }
      BlockFromLocation(takeStep, rhsFunc, ivs, qs, i - 1);
    }
  }

  /** With at least one step per interval, every breakpoint after the first lies after step 0. */
  lemma {:induction false} LocsPositive(ivs: seq<Interval>, i: int)
    requires forall i :: 0 <= i < |ivs| ==> ivs[i].n >= 1
    requires 1 <= i <= |ivs|
    ensures Locs(ivs)[i] >= 1
  {
    LocsArePrefixSums(ivs);
    assert Locs(ivs)[i] == Locs(ivs)[i - 1] + ivs[i - 1].n;
  }
}
