# Fixed-step LMDE engine of qiskit-dynamics, modelled in Dafny

This project models the discrete, exact-arithmetic core of the fixed-step
solvers of qiskit-dynamics. It also models three small helpers from
elsewhere in the repository. Every model is proved against a
specification.

- **Time grid** (`get_fixed_step_sizes`), in `fixed_step_grid.dfy`.
  - The merged breakpoint list is cut into equal steps, with at least one step per interval.
  - The steps add up to each interval exactly, keeping its sign, so backward integration works.
  - No step is longer than `max_dt`, up to the source's relative tolerance of 1e-15.
  - The count is `max(1, ceil(|delta| / max_dt))`, or one less when the tolerance absorbs the excess.
- **Sequential and JAX stepping templates**, in `fixed_step_templates.dfy`.
  - Both are stated against one reference definition, `Trajectory`: `y0`, then each interval's `n` steps applied to the previous value.
  - The JAX loop pads every interval to `max_steps` iterations. The model proves that this padding changes nothing.
- **Parallel LMDE template**, in `parallel_layout.dfy` and `parallel_template.dfy`.
  - The bookkeeping produces `all_times`, `all_h` and `t_list_locations` as prefix sums.
  - The step propagators are composed by a prefix scan under `reverse_mul(A, B) = B @ A`.
  - Both branches are proved to give the sequential template's values for the rule `propagator @ y`: the square `y0` branch and the scan-then-apply branch.
- **`matrix_commutator` and `get_exponential_take_step`**, in `matrices.dfy` and `exponential_step.dfy`.
  - The Magnus orders 1, 2 and 3 are written out, with nodes, terms and commutators.
  - The matrix exponential and `sqrt` are parameters.
- **`solve_lmde_perturbation` argument handling and `merge_expansion_order_terms`**, in `perturbation_setup.dfy` and `index_combinations.dfy`.
  - This covers the checks, the `use_jax` loop, the indices and the dispatch.
  - `unique_indices` is built in first-occurrence order.
  - The terms come from `product` and `combinations_with_replacement`, with their counts, shapes, order and distinctness.
- **`labels_generator`**, in `pulse_labels.dfy`.
  - The model covers the label count, distinctness, exact membership, the first label and the string form.
- **`c2r`, `r2c`, `real_rhs` and the `t_eval`/`saveat` check** of the diffrax wrapper, in `diffrax_packing.dfy`.

Modelling choices:

- Times and matrix entries are exact `real`s, and matrices are `seq<seq<real>>`.
- The step rule (`take_step`, `propagator`) and `rhs_func`/`generator` are function parameters.
- `jax.vmap` and `jax.lax.associative_scan` are modelled by their sequential meaning.
  - `associative_scan` may use any bracketing because its operator is meant to be associative. The model proves the three-term law for `reverse_mul` on d x d matrices (`ParallelTemplate.ReverseMulAssociative`) and, from it, the split of a scan into two halves (`ParallelTemplate.ScanSplit`). It models only the sequential bracketing, and no contract of the templates relies on those two lemmas.
- Errors the source raises are `Result`/`SetupResult` values carrying the message.

Where the source's documentation and its code differ, the model follows the code:

- **Step count.** The docstring at qiskit_dynamics/solvers/fixed_step_solvers.py:428-429 promises the least number of equal sub-intervals smaller than `max_dt`. The code truncates `|delta / max_dt|` and adds one only when the step still exceeds `max_dt` by more than the tolerance. So the count can be `ceil - 1` when the excess is within 1e-15, and then the step exceeds `max_dt` by at most that tolerance. `FixedStepGrid.StepCountSpec` states exactly that.
- **String labels.** With `array=False`, `labels_generator` joins the decimal digits without a separator. With every dimension at most 10 the strings are distinct (`PulseLabels.StringLabelsDistinct`). With two subsystems of dimension at least 12, the labels `[1, 11]` and `[11, 1]` both become `"111"` (`PulseLabels.StringLabelsCollide`). Only these two cases are stated. Other dimension lists above 10 are not covered: some collide, such as three subsystems of dimension 11, and some do not.
- **Odd-length `r2c`.** `r2c` runs on `jax.numpy` arrays, so an odd-length array follows their broadcasting rules:
  - length 1 gives the empty array;
  - length 3 repeats the real part;
  - any other odd length is an error.

  `DiffraxPacking.R2CByLength` states all three.

## Model

| member | source | states |
|---|---|---|
| FixedStepGrid.Deltas | qiskit_dynamics/solvers/fixed_step_solvers.py:639 | `np.diff(t_list)`: one difference per pair of consecutive breakpoints, none for fewer than two breakpoints |
| FixedStepGrid.StepCount | qiskit_dynamics/solvers/fixed_step_solvers.py:640-648 | the count of one interval (truncated quotient, raised to 1 at 0, bumped by one past the tolerance) is at least 1; `StepCountSpec` states its coverage and minimality |
| FixedStepGrid.StepCounts | qiskit_dynamics/solvers/fixed_step_solvers.py:640-648 | `n_steps_list`: one count per interval, every count at least 1 |
| FixedStepGrid.StepSizes | qiskit_dynamics/solvers/fixed_step_solvers.py:651 | `h_list`: one size per interval; `StepSizesValid` states that size times count is the interval |
| FixedStepGrid.StepCountSpec | qiskit_dynamics/solvers/fixed_step_solvers.py:639-651 | one interval gets n >= 1 steps; (delta/n)*n == delta and the step has the sign of delta; abs(step) <= max_dt*(1+1e-15); n-1 steps would be longer than max_dt; n is max(1, ceil(abs(delta)/max_dt)) or one less within the tolerance |
| FixedStepGrid.StepSizesValidAt | qiskit_dynamics/solvers/fixed_step_solvers.py:639-651 | interval i of the built grid: count >= 1, step times count equals t[i+1]-t[i], step within max_dt up to the tolerance |
| FixedStepGrid.StepSizesValid | qiskit_dynamics/solvers/fixed_step_solvers.py:639-653 | the whole grid satisfies the grid invariant `ValidGrid`: one count and one size per interval, each interval covered exactly, no step too long |
| FixedStepGrid.GetFixedStepSizes | qiskit_dynamics/solvers/fixed_step_solvers.py:616-653 | the truncation, the in-place correction loop and the division compute exactly the counts and sizes whose properties `StepCountSpec` and `StepSizesValid` state |
| FixedStepGrid.DivMul | qiskit_dynamics/solvers/fixed_step_solvers.py:651 | dividing an interval by its count and multiplying back restores it, and the quotient keeps the sign |
| FixedStepTemplates.Zip | qiskit_dynamics/solvers/fixed_step_solvers.py:448 | `zip` is as long as its shortest list |
| FixedStepTemplates.Grid | qiskit_dynamics/solvers/fixed_step_solvers.py:445-448 | the zipped intervals of the merged list: one per pair of consecutive breakpoints |
| FixedStepTemplates.StepsFrom | qiskit_dynamics/solvers/fixed_step_solvers.py:449-453 | definition without a contract of its own: the inner `for _ in range(n_steps)` loop as n_steps applications of take_step, the time advancing by h after each, none for n_steps <= 0; `StepInterval`, `StepsAtTimes` and `TrajectoryAt` state its use |
| FixedStepTemplates.ZipDropsLast | qiskit_dynamics/solvers/fixed_step_solvers.py:514 | scanning over `t_list[:-1]` meets the same intervals as zipping the full `t_list` |
| FixedStepTemplates.GridStepCounts | qiskit_dynamics/solvers/fixed_step_solvers.py:643-648 | every interval of the grid has at least one step |
| FixedStepTemplates.StepsAtTimes | qiskit_dynamics/solvers/fixed_step_solvers.py:450-453 | step k of an interval is taken at time t + k*h; the last of n steps at t + (n-1)*h |
| FixedStepTemplates.Trajectory | qiskit_dynamics/solvers/fixed_step_solvers.py:447-454 | one value per breakpoint |
| FixedStepTemplates.TrajectoryAt | qiskit_dynamics/solvers/fixed_step_solvers.py:447-454 | ys[0] == y0 and ys[i+1] is take_step applied n_i times to ys[i] from t_i with step h_i |
| FixedStepTemplates.StepInterval | qiskit_dynamics/solvers/fixed_step_solvers.py:449-453 | the inner loop over `range(n_steps)` returns the value n_steps applications of take_step reach, the time advancing by h after each |
| FixedStepTemplates.FixedStepSolverTemplate | qiskit_dynamics/solvers/fixed_step_solvers.py:443-457 | the nested loops return the trajectory of the grid: one value per breakpoint, y0 first, each next value n_i steps after the previous |
| FixedStepTemplates.LaxScan | qiskit_dynamics/solvers/fixed_step_solvers.py:507 | `lax.scan` stacks one output per element |
| FixedStepTemplates.Range | qiskit_dynamics/solvers/fixed_step_solvers.py:507 | `arange(m)` is 0, 1, ..., m-1 |
| FixedStepTemplates.MaxOf | qiskit_dynamics/solvers/fixed_step_solvers.py:491 | `max_steps` bounds every step count and is one of them |
| FixedStepTemplates.ScanTakeStep | qiskit_dynamics/solvers/fixed_step_solvers.py:501-505 | definition without a contract of its own: one masked iteration on the carry (t, y), applying take_step only while step < n_steps and advancing t by h every time; `MaskedScanTakesSteps` states what a run of them does |
| FixedStepTemplates.ScanIntervalIntegrate | qiskit_dynamics/solvers/fixed_step_solvers.py:497-509 | definition without a contract of its own: one interval as the inner scan over `arange(max_steps)` from (current_t, current_y), returning next_y as carry and output; `OuterScanIsTrajectory` states its meaning |
| FixedStepTemplates.MaskedScanTakesSteps | qiskit_dynamics/solvers/fixed_step_solvers.py:497-507 | the masked inner scan over at least n_steps iterations takes exactly n_steps steps; the iterations with step >= n_steps leave y unchanged |
| FixedStepTemplates.OuterScanIsTrajectory | qiskit_dynamics/solvers/fixed_step_solvers.py:497-515 | the outer scan's stacked outputs are the trajectory after y0 whenever max_steps bounds every count |
| FixedStepTemplates.FixedStepSolverTemplateJax | qiskit_dynamics/solvers/fixed_step_solvers.py:486-519 | y0 followed by one scanned value per interval: one value per breakpoint, y0 first; `JaxTemplateMatchesSequential` states that they are the sequential template's values |
| FixedStepTemplates.JaxTemplateMatchesSequential | qiskit_dynamics/solvers/fixed_step_solvers.py:486-519 | the JAX template returns the same values as the sequential template |
| ParallelLayout.IntervalTimes | qiskit_dynamics/solvers/fixed_step_solvers.py:584 | `t + h * arange(n_steps)` has one time per step |
| ParallelLayout.IntervalSteps | qiskit_dynamics/solvers/fixed_step_solvers.py:585 | `h * ones(n_steps)` has one size per step |
| ParallelLayout.FlatSteps | qiskit_dynamics/solvers/fixed_step_solvers.py:580-585 | `all_h` is as long as `all_times` |
| ParallelLayout.Locs | qiskit_dynamics/solvers/fixed_step_solvers.py:582-586 | one location per breakpoint |
| ParallelLayout.BuiltNext | qiskit_dynamics/solvers/fixed_step_solvers.py:583-586 | one pass of the bookkeeping loop extends the three lists for the intervals before it to those for one more interval |
| ParallelLayout.StepTimes | qiskit_dynamics/solvers/fixed_step_solvers.py:580-586 | the loop builds exactly the flat step times, the flat step sizes and the breakpoint locations of the zipped intervals |
| ParallelLayout.LocsArePrefixSums | qiskit_dynamics/solvers/fixed_step_solvers.py:582-586 | t_list_locations starts at 0, each entry is the previous plus n_steps, and the entries never decrease |
| ParallelLayout.FlatLengths | qiskit_dynamics/solvers/fixed_step_solvers.py:584-586 | all_times and all_h both have sum(n_i) entries, the last location |
| ParallelLayout.FlatSliceLast | qiskit_dynamics/solvers/fixed_step_solvers.py:584-586 | the last interval's steps are the tail of the flat lists, and its location is the last one plus its count |
| ParallelLayout.SliceAtEarlier | qiskit_dynamics/solvers/fixed_step_solvers.py:584-586 | appending an interval keeps the block of every earlier one |
| ParallelLayout.SliceAtLast | qiskit_dynamics/solvers/fixed_step_solvers.py:584-586 | the last interval's block lies at the end of the flat lists |
| ParallelLayout.FlatSlices | qiskit_dynamics/solvers/fixed_step_solvers.py:584-586 | positions locs[i] up to locs[i+1] of all_times hold t_i + j*h_i and those of all_h hold h_i |
| ParallelLayout.StepsAlongBlock | qiskit_dynamics/solvers/fixed_step_solvers.py:584-589 | per-step states along one interval's block are n applications of the step rule |
| ParallelLayout.BlockFromLocation | qiskit_dynamics/solvers/fixed_step_solvers.py:582-589 | from the location of breakpoint i the per-step states reach breakpoint i+1 after n_i steps |
| ParallelLayout.LocationsFollowTrajectory | qiskit_dynamics/solvers/fixed_step_solvers.py:582-602 | per-step states that follow the flat step lists equal the sequential trajectory at every breakpoint location |
| ParallelLayout.LocsPositive | qiskit_dynamics/solvers/fixed_step_solvers.py:607-608 | with at least one step per interval every later location is >= 1, so `t_list_locations[1:] - 1` indexes the scan |
| ParallelTemplate.AssociativeScan | qiskit_dynamics/solvers/fixed_step_solvers.py:599-606 | the prefix scan has one entry per element |
| ParallelTemplate.AssociativeScanAt | qiskit_dynamics/solvers/fixed_step_solvers.py:599-606 | entry 0 is the first element and entry k combines entry k-1 with element k |
| ParallelTemplate.ReverseMul | qiskit_dynamics/solvers/fixed_step_solvers.py:594-595 | definition without a contract of its own: `reverse_mul(A, B) = B @ A`; `ReverseMulAssociative`, `ScanStepIsTakeStep` and `ScanSplit` state its properties |
| ParallelTemplate.ReverseMulAssociative | qiskit_dynamics/solvers/fixed_step_solvers.py:594-595 | reverse_mul is associative on d x d matrices |
| ParallelTemplate.ScanOfSquares | qiskit_dynamics/solvers/fixed_step_solvers.py:599-606 | a scan of d x d propagators yields d x d products |
| ParallelTemplate.ScanPrefix | qiskit_dynamics/solvers/fixed_step_solvers.py:599-606 | the scan of xs + ys begins with the scan of xs |
| ParallelTemplate.ScanSplit | qiskit_dynamics/solvers/fixed_step_solvers.py:594-606 | for d x d matrices, entry len(xs) + k of the scan of xs + ys is the product of all of xs combined by reverse_mul with entry k of the scan of ys alone: the step by which a bracketed scan joins two halves |
| ParallelTemplate.MatStates | qiskit_dynamics/solvers/fixed_step_solvers.py:602 | every scan entry as a 2-D (matrix) state |
| ParallelTemplate.AppliedStates | qiskit_dynamics/solvers/fixed_step_solvers.py:608-609 | y0 then every scan entry applied to y0 |
| ParallelTemplate.ScanStepIsTakeStep | qiskit_dynamics/solvers/fixed_step_solvers.py:594-601 | one reverse_mul with a step propagator is one step `propagator @ y` |
| ParallelTemplate.SquareScanSteps | qiskit_dynamics/solvers/fixed_step_solvers.py:597-601 | the scanned products of [y0] + step_propagators start at y0 and advance by one step each |
| ParallelTemplate.StepPropagators | qiskit_dynamics/solvers/fixed_step_solvers.py:589 | entry k is the propagator at all_times[k] with all_h[k] |
| ParallelTemplate.StepPropagatorShapes | qiskit_dynamics/solvers/fixed_step_solvers.py:589 | d x d propagators give d x d step propagators |
| ParallelTemplate.PropagatorShapeAt | qiskit_dynamics/solvers/fixed_step_solvers.py:589 | the propagator at one time and step is d x d |
| ParallelTemplate.ReadLocations | qiskit_dynamics/solvers/fixed_step_solvers.py:602 | `intermediate_props[t_list_locations]` picks the scan entry at every location |
| ParallelTemplate.ApplyAtLocations | qiskit_dynamics/solvers/fixed_step_solvers.py:608-609 | y0, then the scan entry at every later location minus one applied to y0 |
| ParallelTemplate.SquareScanAtBreakpoint | qiskit_dynamics/solvers/fixed_step_solvers.py:597-602 | the scan entry at location i is the trajectory's value at breakpoint i |
| ParallelTemplate.SquareScanIsTrajectory | qiskit_dynamics/solvers/fixed_step_solvers.py:597-602 | square y0: the locations index the scan and the values read there are the sequential template's |
| ParallelTemplate.ScanThenApplySteps | qiskit_dynamics/solvers/fixed_step_solvers.py:606-608 | applying the scanned products to y0 advances by one step each, by associativity |
| ParallelTemplate.ScanEntryAtBreakpoint | qiskit_dynamics/solvers/fixed_step_solvers.py:606-608 | scan entry locs[i]-1 applied to y0 is the trajectory's value at breakpoint i >= 1 |
| ParallelTemplate.ScanThenApplyAt | qiskit_dynamics/solvers/fixed_step_solvers.py:606-608 | the same for every breakpoint i >= 1 of the scan of the step propagators |
| ParallelTemplate.ScanThenApplyMatches | qiskit_dynamics/solvers/fixed_step_solvers.py:603-609 | non-square y0: prepending y0 to the applied entries gives the sequential template's values |
| ParallelTemplate.ScanThenApplyIsTrajectory | qiskit_dynamics/solvers/fixed_step_solvers.py:603-609 | the same starting from the propagator rule, whenever its propagators are d x d for the d rows of y0 |
| ParallelTemplate.ParallelSolverTemplate | qiskit_dynamics/solvers/fixed_step_solvers.py:575-611 | both branches of the parallel template return the sequential template's values for the step rule `propagator @ y` |
| Matrices.Commutator | qiskit_dynamics/solvers/fixed_step_solvers.py:308-318 | definition without a contract of its own: `m1 @ m2 - m2 @ m1`; `CommutatorAntisymmetric`, `CommutatorSelfIsZero` and `CommutatorWithZero` state its properties |
| Matrices.MatMulSquare | qiskit_dynamics/solvers/fixed_step_solvers.py:318 | the product of two d x d matrices is d x d |
| Matrices.CommutatorAntisymmetric | qiskit_dynamics/solvers/fixed_step_solvers.py:308-318 | [A, B] is d x d and equals -[B, A] entrywise |
| Matrices.CommutatorSelfIsZero | qiskit_dynamics/solvers/fixed_step_solvers.py:308-318 | [A, A] is the zero matrix |
| Matrices.CommutatorWithZero | qiskit_dynamics/solvers/fixed_step_solvers.py:308-318 | the commutator with a zero matrix, on either side, is zero |
| Matrices.MatVecAssoc | qiskit_dynamics/solvers/fixed_step_solvers.py:608 | (A B) v == A (B v) |
| Matrices.MatMulAssoc | qiskit_dynamics/solvers/fixed_step_solvers.py:594-595 | (A B) C == A (B C) |
| ExponentialStep.Magnus1 | qiskit_dynamics/solvers/fixed_step_solvers.py:343-346 | definition without a contract of its own: `expm(generator(t0 + h/2) * h)`; `ConstantGeneratorOrdersAgree` states its value for a constant generator |
| ExponentialStep.Magnus2Exponent | qiskit_dynamics/solvers/fixed_step_solvers.py:356-360 | definition without a contract of its own: `h (g1 + g2) / 2 + p2 h**2 [g2, g1]`; `Magnus2Constant` states its value when g1 == g2 |
| ExponentialStep.Magnus2 | qiskit_dynamics/solvers/fixed_step_solvers.py:348-363 | definition without a contract of its own: the nodes c1, c2 and the constant p2 from sqrt(3), the generator at t0 + c1 h and t0 + c2 h, and expm of the exponent; `Magnus2OfConstant` states its value for a constant generator |
| ExponentialStep.Magnus3Exponent | qiskit_dynamics/solvers/fixed_step_solvers.py:380-389 | definition without a contract of its own: a1, a2, a3, comm1, comm2 and the terms with their constants; `Magnus3Constant` states its value when g1 == g2 == g3 |
| ExponentialStep.Magnus3 | qiskit_dynamics/solvers/fixed_step_solvers.py:365-392 | definition without a contract of its own: the nodes d1, d2, d3 and the constants c0, c1 from sqrt(15), the generator at the three nodes, and expm of the exponent; `Magnus3OfConstant` states its value for a constant generator |
| ExponentialStep.TakeStepOf | qiskit_dynamics/solvers/fixed_step_solvers.py:400-401 | definition without a contract of its own: `take_step(generator, t0, y, h) = propagator(generator, t0, h) @ y`; `TakeStepAppliesPropagator` states it for every accepted order |
| ExponentialStep.GetExponentialTakeStep | qiskit_dynamics/solvers/fixed_step_solvers.py:321-403 | definition without a contract of its own: the propagator of order 1, 2 or 3, returned bare when just_propagator and wrapped by `TakeStepOf` otherwise, and the error for any other order; `GetExponentialTakeStepOrders` and `TakeStepAppliesPropagator` state its meaning |
| ExponentialStep.Apply | qiskit_dynamics/solvers/fixed_step_solvers.py:401 | `p @ y` keeps the kind of state, vector or matrix |
| ExponentialStep.ApplyAssoc | qiskit_dynamics/solvers/fixed_step_solvers.py:608 | (A B) @ y == A @ (B @ y) for d x d A, B and y with d rows |
| ExponentialStep.GetExponentialTakeStepOrders | qiskit_dynamics/solvers/fixed_step_solvers.py:343-403 | a rule is returned exactly for magnus_order 1, 2, 3, otherwise the error; it is the bare propagator exactly when just_propagator |
| ExponentialStep.TakeStepAppliesPropagator | qiskit_dynamics/solvers/fixed_step_solvers.py:397-403 | for every accepted order the full step is take_step(G, t0, y, h) == propagator(G, t0, h) @ y of the same order |
| ExponentialStep.Magnus2Constant | qiskit_dynamics/solvers/fixed_step_solvers.py:354-363 | the second-order exponent of a constant generator A is h A |
| ExponentialStep.Magnus3Constant | qiskit_dynamics/solvers/fixed_step_solvers.py:373-392 | the third-order exponent of a constant generator A is h A |
| ExponentialStep.Magnus2OfConstant | qiskit_dynamics/solvers/fixed_step_solvers.py:348-363 | the second-order propagator of a constant generator is expm(h A) |
| ExponentialStep.Magnus3OfConstant | qiskit_dynamics/solvers/fixed_step_solvers.py:365-392 | the third-order propagator of a constant generator is expm(h A) |
| ExponentialStep.ConstantGeneratorOrdersAgree | qiskit_dynamics/solvers/fixed_step_solvers.py:343-392 | for a constant generator all three orders give the propagator expm(h A) |
| IndexCombinations.Flatten | qiskit_dynamics/perturbation/solve_lmde_perturbation.py:339-340 | definition without a contract of its own: the indices of every multiset in visiting order; `FlattenMembership` states which indices it holds |
| IndexCombinations.DedupFirst | qiskit_dynamics/perturbation/solve_lmde_perturbation.py:341-342 | definition without a contract of its own: an index is appended only when not yet kept; `DedupFirstSpec` states its meaning |
| IndexCombinations.UniqueIndices | qiskit_dynamics/perturbation/solve_lmde_perturbation.py:338-342 | definition without a contract of its own: the first-occurrence deduplication of the visited indices; `UniqueIndicesSpec` states its meaning |
| IndexCombinations.FlattenMembership | qiskit_dynamics/perturbation/solve_lmde_perturbation.py:339-340 | an index is visited exactly when it occurs in some multiset |
| IndexCombinations.FirstIndex | qiskit_dynamics/perturbation/solve_lmde_perturbation.py:341 | the position of the first occurrence |
| IndexCombinations.FirstIndexUnique | qiskit_dynamics/perturbation/solve_lmde_perturbation.py:341 | an occurrence with none before it is the first |
| IndexCombinations.DedupFirstSpec | qiskit_dynamics/perturbation/solve_lmde_perturbation.py:338-342 | keeping first occurrences gives no duplicates, the same elements, in first-occurrence order |
| IndexCombinations.UniqueIndicesSpec | qiskit_dynamics/perturbation/solve_lmde_perturbation.py:338-342 | unique_indices has no duplicates, lists exactly the indices of perturbation_indices, in first-occurrence order |
| IndexCombinations.UniqueIndicesOf | qiskit_dynamics/perturbation/solve_lmde_perturbation.py:338-342 | the nested loop computes exactly those unique indices |
| IndexCombinations.PrependEach | qiskit_dynamics/perturbation/solve_lmde_perturbation.py:352 | each tuple gets the head in front |
| IndexCombinations.ProductHeads | qiskit_dynamics/perturbation/solve_lmde_perturbation.py:352 | n heads by m tails give n*m tuples |
| IndexCombinations.Product | qiskit_dynamics/perturbation/solve_lmde_perturbation.py:352 | product(u, repeat=k) has n**k tuples |
| IndexCombinations.ProductHeadsMembership | qiskit_dynamics/perturbation/solve_lmde_perturbation.py:352 | a tuple is produced exactly when its head is in u and its tail among the shorter tuples |
| IndexCombinations.ProductMembership | qiskit_dynamics/perturbation/solve_lmde_perturbation.py:352 | the tuples are exactly the length-k sequences over u |
| IndexCombinations.ProductHeadsAt | qiskit_dynamics/perturbation/solve_lmde_perturbation.py:352 | entry q*m+r is head q followed by tail r |
| IndexCombinations.ProductAt | qiskit_dynamics/perturbation/solve_lmde_perturbation.py:352 | lexicographic order: entry q*n**(k-1)+r is u[q] followed by tuple r of length k-1 |
| IndexCombinations.ProductDistinct | qiskit_dynamics/perturbation/solve_lmde_perturbation.py:352 | over distinct indices no tuple occurs twice |
| IndexCombinations.CombinationsWithReplacement | qiskit_dynamics/perturbation/solve_lmde_perturbation.py:348-350 | definition without a contract of its own: the terms starting with u[0] (u[0] before every term of order k-1 over u), then the terms over u[1..]; `CombinationsSpec` states its count, distinctness and membership |
| IndexCombinations.MultiChooseIsBinomial | qiskit_dynamics/perturbation/solve_lmde_perturbation.py:348-350 | the number of size-k multisets over n >= 1 elements is C(n+k-1, k) |
| IndexCombinations.CombinationsCount | qiskit_dynamics/perturbation/solve_lmde_perturbation.py:348-350 | combinations_with_replacement(u, k) has MultiChoose(n, k) terms |
| IndexCombinations.CombinationsTerms | qiskit_dynamics/perturbation/solve_lmde_perturbation.py:348-350 | soundness: every term has length k and is non-decreasing by position in u |
| IndexCombinations.DropHeadTerm | qiskit_dynamics/perturbation/solve_lmde_perturbation.py:348-350 | the tail of a non-decreasing term is non-decreasing |
| IndexCombinations.TermPastHead | qiskit_dynamics/perturbation/solve_lmde_perturbation.py:348-350 | a non-decreasing term that does not start with u[0] lies over u[1..] and is non-decreasing there |
| IndexCombinations.PrependedInBlock | qiskit_dynamics/perturbation/solve_lmde_perturbation.py:348-350 | x followed by one of ts is among the terms that start with x |
| IndexCombinations.CombinationsComplete | qiskit_dynamics/perturbation/solve_lmde_perturbation.py:348-350 | completeness: every length-k sequence over distinct u that is non-decreasing by position is a term |
| IndexCombinations.CombinationsMembership | qiskit_dynamics/perturbation/solve_lmde_perturbation.py:348-350 | the terms are exactly the length-k sequences non-decreasing by position in u, i.e. every size-k multiset of u written once in order |
| IndexCombinations.CombinationsDistinct | qiskit_dynamics/perturbation/solve_lmde_perturbation.py:348-350 | over distinct indices no term occurs twice |
| IndexCombinations.CombinationsSpec | qiskit_dynamics/perturbation/solve_lmde_perturbation.py:348-350 | MultiChoose(n, k) pairwise distinct terms, exactly the length-k sequences non-decreasing by position in u |
| PerturbationSetup.UsesJax | qiskit_dynamics/perturbation/solve_lmde_perturbation.py:222-231 | definition without a contract of its own: every perturbation and a given generator evaluate on JAX; `UsesJaxMeaning` restates it as the loop's outcome |
| PerturbationSetup.DefaultIndices | qiskit_dynamics/perturbation/solve_lmde_perturbation.py:246 | definition without a contract of its own: `[[idx] for idx in range(len(perturbations))]`; `SetupAccepts` states its use |
| PerturbationSetup.MergeTerms | qiskit_dynamics/perturbation/solve_lmde_perturbation.py:337-355 | definition without a contract of its own: expansion_terms or [], followed for a given order by the symmetric or ordered terms over unique_indices; `MergeTermsBase`, `MergeTermsSymmetric` and `MergeTermsOrdered` state its meaning |
| PerturbationSetup.Setup | qiskit_dynamics/perturbation/solve_lmde_perturbation.py:212-310 | definition without a contract of its own: the checks in the source's order, then the indices, the merge and the dispatch; `SetupRequiresOrderOrTerms`, `SetupRejectsNonSquareY0`, `SetupRejectsIndicesWithDyson` and `SetupAccepts` state its meaning |
| PerturbationSetup.SymmetricFlag | qiskit_dynamics/perturbation/solve_lmde_perturbation.py:250 | "symmetric" is a substring of symmetric_dyson and symmetric_magnus and not of dyson |
| PerturbationSetup.MergeExpansionOrderTerms | qiskit_dynamics/perturbation/solve_lmde_perturbation.py:313-355 | the loop and the enumeration compute the merged terms `MergeTerms`, whose properties the next three lemmas state |
| PerturbationSetup.MergeTermsBase | qiskit_dynamics/perturbation/solve_lmde_perturbation.py:344-355 | the output begins with expansion_terms (or []); without an order it is exactly that list; it fails only for a negative order |
| PerturbationSetup.MergeTermsSymmetric | qiskit_dynamics/perturbation/solve_lmde_perturbation.py:347-350 | symmetric: the appended terms are MultiChoose(n, k) pairwise distinct terms, exactly the length-k sequences over unique_indices non-decreasing by position, so every size-k multiset appears once |
| PerturbationSetup.MergeTermsOrdered | qiskit_dynamics/perturbation/solve_lmde_perturbation.py:351-353 | non-symmetric: the appended terms are the n**k distinct ordered tuples, exactly the length-k sequences over unique_indices |
| PerturbationSetup.SolveLmdePerturbation | qiskit_dynamics/perturbation/solve_lmde_perturbation.py:212-310 | the checks, the use_jax loop, the indices, the merge and the dispatch compute exactly `Setup` |
| PerturbationSetup.SetupRequiresOrderOrTerms | qiskit_dynamics/perturbation/solve_lmde_perturbation.py:212-216 | the first error is raised exactly when both expansion_order and expansion_terms are None |
| PerturbationSetup.SetupRejectsNonSquareY0 | qiskit_dynamics/perturbation/solve_lmde_perturbation.py:218-220 | a given y0 that is not a square 2-D array is rejected |
| PerturbationSetup.SetupRejectsIndicesWithDyson | qiskit_dynamics/perturbation/solve_lmde_perturbation.py:234-238 | perturbation_indices with 'dyson' is rejected |
| PerturbationSetup.SetupAccepts | qiskit_dynamics/perturbation/solve_lmde_perturbation.py:233-310 | accepted exactly when every check passes and the method is one of the three supported; then the solver tag, the symmetric flag, the default [[i] for i in range(n)] indices and the merged terms |
| PerturbationSetup.UsesJaxMeaning | qiskit_dynamics/perturbation/solve_lmde_perturbation.py:223-231 | use_jax stays true exactly when no perturbation and no given generator evaluates off JAX |
| PulseLabels.Zeros | qiskit_dynamics/pulse/pulse_utils.py:19 | n zeros |
| PulseLabels.Relabel | qiskit_dynamics/pulse/pulse_utils.py:28-31 | one copy per label, with entry k set |
| PulseLabels.NewLabels | qiskit_dynamics/pulse/pulse_utils.py:21-31 | every new label has one entry per subsystem |
| PulseLabels.LabelsUpTo | qiskit_dynamics/pulse/pulse_utils.py:19-32 | every label has one entry per subsystem |
| PulseLabels.Reverse | qiskit_dynamics/pulse/pulse_utils.py:34 | entry j of the reversed label is entry len-1-j |
| PulseLabels.GeneratedLabels | qiskit_dynamics/pulse/pulse_utils.py:19-34 | every returned label has len(subsystem_dims) entries |
| PulseLabels.LabelStrings | qiskit_dynamics/pulse/pulse_utils.py:36-37 | one string per label |
| PulseLabels.AppendCopies | qiskit_dynamics/pulse/pulse_utils.py:28-31 | the copy loop appends exactly the relabelled copies of all labels so far |
| PulseLabels.ReverseEach | qiskit_dynamics/pulse/pulse_utils.py:33-34 | every label is reversed and nothing else changes |
| PulseLabels.LabelsGenerator | qiskit_dynamics/pulse/pulse_utils.py:18-38 | the loops return the generated labels, as lists with array=True and joined digit strings otherwise |
| PulseLabels.NewLabelsMembership | qiskit_dynamics/pulse/pulse_utils.py:21-31 | new_labels holds exactly the copies of the labels so far with entry k set to a state 1..dim-1 |
| PulseLabels.NewLabelsSound | qiskit_dynamics/pulse/pulse_utils.py:21-31 | every new label is such a copy |
| PulseLabels.CopyInNewLabels | qiskit_dynamics/pulse/pulse_utils.py:21-31 | every such copy is a new label |
| PulseLabels.LabelsInRange | qiskit_dynamics/pulse/pulse_utils.py:19-32 | after k subsystems every label has entries below the handled dimensions and 0 beyond |
| PulseLabels.LabelsComplete | qiskit_dynamics/pulse/pulse_utils.py:19-32 | every such sequence is a label after k subsystems |
| PulseLabels.LabelsMembership | qiskit_dynamics/pulse/pulse_utils.py:19-32 | the labels after k subsystems are exactly those sequences |
| PulseLabels.LabelsGrow | qiskit_dynamics/pulse/pulse_utils.py:32 | `labels += new_labels` keeps the old labels and adds the new ones |
| PulseLabels.NewLabelsCount | qiskit_dynamics/pulse/pulse_utils.py:22-31 | (dim-1) copies of every label so far |
| PulseLabels.LabelsCount | qiskit_dynamics/pulse/pulse_utils.py:19-32 | the number of labels is the product of the dimensions (1 for an empty list; a dimension below 1 counts as 1) |
| PulseLabels.RelabelDistinct | qiskit_dynamics/pulse/pulse_utils.py:28-31 | copies of distinct labels that are 0 at entry k stay distinct |
| PulseLabels.NewLabelsDistinct | qiskit_dynamics/pulse/pulse_utils.py:22-31 | new labels are distinct and nonzero at entry k, where every earlier label is 0 |
| PulseLabels.LabelsDistinct | qiskit_dynamics/pulse/pulse_utils.py:19-32 | no label is produced twice |
| PulseLabels.LabelsStartWithZeros | qiskit_dynamics/pulse/pulse_utils.py:19-32 | the all-zero label comes first |
| PulseLabels.GeneratedCount | qiskit_dynamics/pulse/pulse_utils.py:18-34 | the returned labels number the product of the dimensions, the all-zero label first |
| PulseLabels.ReverseInRange | qiskit_dynamics/pulse/pulse_utils.py:33-34 | a label is in range exactly when its reversal lists the last subsystem first |
| PulseLabels.GeneratedInRange | qiskit_dynamics/pulse/pulse_utils.py:18-34 | digit j of a returned label is below subsystem_dims[len-1-j] |
| PulseLabels.GeneratedComplete | qiskit_dynamics/pulse/pulse_utils.py:18-34 | every such sequence is returned |
| PulseLabels.GeneratedMembership | qiskit_dynamics/pulse/pulse_utils.py:18-34 | the returned labels are exactly the sequences whose digit j is below subsystem_dims[len-1-j] |
| PulseLabels.GeneratedDistinct | qiskit_dynamics/pulse/pulse_utils.py:18-34 | the returned labels are pairwise distinct |
| PulseLabels.Str | qiskit_dynamics/pulse/pulse_utils.py:36 | definition without a contract of its own: Python's `str` of an integer, a minus sign before the decimal digits of a negative one |
| PulseLabels.Join | qiskit_dynamics/pulse/pulse_utils.py:36-37 | definition without a contract of its own: the `str` of every entry, concatenated without a separator; `JoinSingleDigits` and `JoinOneEleven` state its behaviour |
| PulseLabels.JoinSingleDigits | qiskit_dynamics/pulse/pulse_utils.py:36-37 | joining single digits gives one character per digit |
| PulseLabels.StringLabelsDistinct | qiskit_dynamics/pulse/pulse_utils.py:35-37 | with every dimension at most 10 the strings are distinct and character j is the digit of entry j |
| PulseLabels.StringLabelsCollide | qiskit_dynamics/pulse/pulse_utils.py:35-37 | with two subsystems of dimension at least 12 two labels give the same string |
| PulseLabels.JoinOneEleven | qiskit_dynamics/pulse/pulse_utils.py:36-37 | [1, 11] and [11, 1] both join to "111" |
| DiffraxPacking.RealParts | qiskit_dynamics/solvers/diffrax_solver.py:108 | `jnp.real` keeps the real part of every entry |
| DiffraxPacking.ImagParts | qiskit_dynamics/solvers/diffrax_solver.py:108 | `jnp.imag` keeps the imaginary part of every entry |
| DiffraxPacking.C2R | qiskit_dynamics/solvers/diffrax_solver.py:106-108 | c2r(x) has 2 len(x) entries, the real parts first and then the imaginary parts |
| DiffraxPacking.Broadcast | qiskit_dynamics/solvers/diffrax_solver.py:114 | definition without a contract of its own: `re + 1j * im` on 1-D arrays under broadcasting; `R2CByLength` states what it gives inside `r2c` |
| DiffraxPacking.R2C | qiskit_dynamics/solvers/diffrax_solver.py:111-114 | definition without a contract of its own: the halves `arr[:size]` and `arr[size:]` joined by `Broadcast`; `R2CByLength`, `R2COfC2R` and `C2ROfR2C` state its meaning |
| DiffraxPacking.R2CByLength | qiskit_dynamics/solvers/diffrax_solver.py:111-114 | even length: len/2 entries arr[i] + i arr[len/2 + i]; odd lengths by broadcasting: 1 gives [], 3 repeats the real part, others fail |
| DiffraxPacking.R2COfC2R | qiskit_dynamics/solvers/diffrax_solver.py:106-114 | r2c(c2r(x)) == x |
| DiffraxPacking.C2ROfR2C | qiskit_dynamics/solvers/diffrax_solver.py:106-114 | c2r(r2c(arr)) == arr for even-length arr |
| DiffraxPacking.RealRhs | qiskit_dynamics/solvers/diffrax_solver.py:97-103 | definition without a contract of its own: `c2r(rhs(t, r2c(y)))`, an r2c error propagating; `RealRhsOfPacked` states its meaning |
| DiffraxPacking.RealRhsOfPacked | qiskit_dynamics/solvers/diffrax_solver.py:97-103 | real_rhs(rhs)(t, c2r(y)) == c2r(rhs(t, y)) |
| DiffraxPacking.RowsToComplex | qiskit_dynamics/solvers/diffrax_solver.py:90 | definition without a contract of its own: r2c of every output state, the first error propagating; `RowsToComplexOfPacked` states its meaning |
| DiffraxPacking.RowsToComplexOfPacked | qiskit_dynamics/solvers/diffrax_solver.py:90 | converting a packed trajectory back gives the complex trajectory |
| DiffraxPacking.SaveAtKwargs | qiskit_dynamics/solvers/diffrax_solver.py:67-74 | definition without a contract of its own: the error when both are given, else `kwargs["saveat"] = SaveAt(ts=t_eval)` for a given t_eval; `SaveAtKwargsSpec` states its meaning |
| DiffraxPacking.SaveAtKwargsSpec | qiskit_dynamics/solvers/diffrax_solver.py:67-74 | an error exactly when saveat is in kwargs and t_eval is given; otherwise other kwargs pass unchanged and a given t_eval becomes saveat |
| Sequences.DisjointAppend | qiskit_dynamics/pulse/pulse_utils.py:32 | appending disjoint duplicate-free lists gives a duplicate-free list |

## Left out

- `merge_t_args` and `trim_t_results` are not shown, so they are not part of this model. The grid starts from the merged time list, and the templates return the values before trimming to `t_eval`.
- The RK4 step rule and the other solver wrappers of fixed_step_solvers.py are not modelled. They are floating-point formulas handed to the templates as a step rule.
- The matrix exponential (`expm`, `jexpm`), the Lanczos routines and `np.sqrt` are parameters. They are floating-point library calls.
- Magnus order of accuracy is not modelled. Only the exactness for constant generators is proved, since accuracy is a floating-point limit statement.
- `jax.vmap` and `associative_scan` are modelled only by their sequential meaning. The parallel evaluation and the tree bracketing are not modelled; only the split into two halves is proved (`ParallelTemplate.ScanSplit`).
- The CPU warning of the parallel template is left out. It is advisory output only.
- Floating-point rounding is left out: all arithmetic is exact.
- Shape errors raised by `@` on mismatched operands are not modelled. Apart from that, matrices are rectangular lists whose products are total.
- `diffeqsolve`, `ODETerm` and `SaveAt` of diffrax are foreign calls and are not modelled. `SaveAt(ts=t_eval)` is a tagged value.
- The Dyson and Magnus solvers that `solve_lmde_perturbation` dispatches to are not modelled: the dispatch is a tag.
- `clean_index_multisets` is a parameter. Its source is not shown.
- The array backend test of the `use_jax` loop is modelled as one boolean per perturbation and one for the generator, because it calls into the array library.
- The other functions of pulse_utils.py, such as `convert_to_dressed`, `compute_probabilities`, `sample_counts` and `generate_ham`, are not modelled. They rely on eigendecomposition, randomness or floats.
- The whitespace of the multi-line error messages is left out: messages are single-line strings.
- The text of the broadcast error is left out. `BroadcastMessage` is a placeholder for the incompatible-shapes error of `jax.numpy`: it keeps only that error's opening words, not the shapes it prints.
- Only 1-D states are modelled for `c2r`/`r2c`. The conversion of the solver output is `r2c` applied to each time's state.
- FixedStepTemplates.FixedStepSolverTemplateJax: requires at least two time points, where the source would fail in `n_steps_list.max()` on an empty list. The merged list always holds both ends of `t_span`.
- ParallelTemplate.ParallelSolverTemplate: for a non-square `y0`, requires every propagator to be a d x d matrix for the d rows of `y0`. The source leaves that check to `@`.
- FixedStepGrid.StepCountSpec: the step is bounded by `max_dt * (1 + 1e-15)` rather than by `max_dt`, because the source's tolerance lets that excess through.
- FixedStepGrid.StepCount: assumes `max_dt > 0`, as do `StepCounts`, `StepSizes`, `StepCountSpec` and `GetFixedStepSizes`. The source divides by `max_dt` without a check (fixed_step_solvers.py:640). At 0 that gives an infinite quotient cast to an integer, and for a negative `max_dt` the bump test at :647 never fires. Neither case is modelled.
