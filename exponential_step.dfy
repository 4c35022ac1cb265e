// `get_exponential_take_step`: the one-step rules of the matrix-exponential
// (Magnus) solvers of orders 1, 2 and 3, either as a bare propagator
// `propagator(generator, t0, h)` or as a step `propagator(...) @ y`.
//
// The matrix exponential and `np.sqrt` are floating-point library calls, so
// both are parameters here; everything around them (the nodes, the Magnus
// terms, the commutators) is written out exactly.
module ExponentialStep {
  import opened Matrices
  import opened Results

  /** A generator `G(t)` of the linear equation `y' = G(t) y`. */
  type Generator = real -> Matrix

  /** The state of the equation: a 1-D or a 2-D array. */
  datatype State = Vec(v: Vector) | Mat(m: Matrix)

  /** `p @ y`. */
  function Apply(p: Matrix, y: State): (r: State)
    ensures r.Vec? == y.Vec?
  {
    match y
    case Vec(v) => Vec(MatVec(p, v))
    case Mat(m) => Mat(MatMul(p, m))
  }

  /** Rows of a state: the length of a vector, the row count of a matrix. */
  function Rows(y: State): nat
  {
    match y
    case Vec(v) => |v|
    case Mat(m) => |m|
  }

  /** `y` is a well-formed array with `d` rows (a rectangular matrix). */
  predicate Conforms(y: State, d: nat)
  {
    match y
    case Vec(v) => |v| == d
    case Mat(m) => IsMatrix(m, d, Cols(m))
  }

  /** `y0.ndim == 2 and y0.shape[0] == y0.shape[1]`. */
  predicate IsSquareState(y: State)
  {
    y.Mat? && |y.m| == Cols(y.m)
  }

  /** `(A B) @ y == A @ (B @ y)` for d x d matrices and a state with d rows. */
  lemma {:induction false} ApplyAssoc(a: Matrix, b: Matrix, y: State, d: nat)
    requires IsMatrix(a, d, d) && IsMatrix(b, d, d) && Conforms(y, d)
    ensures Apply(MatMul(a, b), y) == Apply(a, Apply(b, y))
  {
    match y
    case Vec(v) => MatVecAssoc(a, b, v, d, d, d);
    case Mat(m) => MatMulAssoc(a, b, m, d, Cols(m));
  }

  type Propagator = (Generator, real, real) -> Matrix
  type TakeStep = (Generator, real, State, real) -> State

  /** `take_step(generator, t0, y, h) = propagator(generator, t0, h) @ y`. */
  function TakeStepOf(propagator: Propagator): TakeStep
  {
    (g: Generator, t0: real, y: State, h: real) => Apply(propagator(g, t0, h), y)
  }

  /** What `get_exponential_take_step` hands back. */
  datatype StepRule = JustPropagator(propagator: Propagator) | FullStep(takeStep: TakeStep)

  /** First order: the exponential of `h` times the generator at the midpoint. */
  function Magnus1(expm: Matrix -> Matrix): Propagator
  {
    (g: Generator, t0: real, h: real) => expm(Scale(h, g(t0 + h / 2.0)))
  }

  /** The second-order exponent `h (g1 + g2) / 2 + p2 h^2 [g2, g1]`. */
  function Magnus2Exponent(h: real, p2: real, g1: Matrix, g2: Matrix): Matrix
  {
    Add(Scale(0.5, Scale(h, Add(g1, g2))), Scale(p2 * (h * h), Commutator(g2, g1)))
  }

  /** Second order: the generator at two Gauss nodes and one commutator term. */
  function Magnus2(expm: Matrix -> Matrix, sqrt: real -> real): Propagator
  {
    (g: Generator, t0: real, h: real) =>
      var c1 := 0.5 - sqrt(3.0) / 6.0;
      var c2 := 0.5 + sqrt(3.0) / 6.0;
      var p2 := sqrt(3.0) / 12.0;
      expm(Magnus2Exponent(h, p2, g(t0 + c1 * h), g(t0 + c2 * h)))
  }

  /**
   * The third-order exponent from the generator at three nodes:
   * `a1 + a3 / 12 + [-20 a1 - a3 + comm1, a2 + comm2] / 240` with
   * `a1 = h g2`, `a2 = c0 h (g3 - g1)`, `a3 = c1 h (g3 - 2 g2 + g1)`,
   * `comm1 = [a1, a2]` and `comm2 = [2 a3 + comm1, a1] / 60`.
   */
  function Magnus3Exponent(h: real, c0: real, c1: real, g1: Matrix, g2: Matrix, g3: Matrix): Matrix
  {
    var a1 := Scale(h, g2);
    var a2 := Scale(c0 * h, Sub(g3, g1));
    var a3 := Scale(c1 * h, Add(Sub(g3, Scale(2.0, g2)), g1));
    var comm1 := Commutator(a1, a2);
    var comm2 := Scale(1.0 / 60.0, Commutator(Add(Scale(2.0, a3), comm1), a1));
    Add(Add(a1, Scale(1.0 / 12.0, a3)),
        Scale(1.0 / 240.0, Commutator(Add(Sub(Scale(-20.0, a1), a3), comm1), Add(a2, comm2))))
  }

  /** Third order: the generator at three Gauss nodes and nested commutators. */
  function Magnus3(expm: Matrix -> Matrix, sqrt: real -> real): Propagator
  {
    (g: Generator, t0: real, h: real) =>
      var d1 := 0.5 - sqrt(15.0) / 10.0;
      var d2 := 0.5;
      var d3 := 0.5 + sqrt(15.0) / 10.0;
      var c0 := sqrt(15.0) / 3.0;
      var c1 := 10.0 / 3.0;
      expm(Magnus3Exponent(h, c0, c1, g(t0 + d1 * h), g(t0 + d2 * h), g(t0 + d3 * h)))
  }

  /**
   * `get_exponential_take_step(magnus_order, expm_func, just_propagator)`:
   * an error for an order outside 1, 2, 3; otherwise the propagator, or the
   * step that applies it to the state.
   */
  function GetExponentialTakeStep(magnusOrder: int, expm: Matrix -> Matrix, sqrt: real -> real, justPropagator: bool): Result<StepRule>
  {
    if magnusOrder != 1 && magnusOrder != 2 && magnusOrder != 3 then
      Error("Only magnus_order 1, 2, and 3 are supported.")
    else
      var propagator := if magnusOrder == 1 then Magnus1(expm)
                        else if magnusOrder == 2 then Magnus2(expm, sqrt)
                        else Magnus3(expm, sqrt);
      if justPropagator then Ok(JustPropagator(propagator)) else Ok(FullStep(TakeStepOf(propagator)))
  }

  /**
   * Exactly the orders 1, 2 and 3 are accepted, and the kind of rule
   * returned follows `just_propagator`.
   */
  lemma {:induction false} GetExponentialTakeStepOrders(magnusOrder: int, expm: Matrix -> Matrix, sqrt: real -> real, justPropagator: bool)
    ensures var r := GetExponentialTakeStep(magnusOrder, expm, sqrt, justPropagator);
      && (r.Ok? <==> magnusOrder in {1, 2, 3})
      && (r.Ok? ==> (r.value.JustPropagator? <==> justPropagator))
  {
  }

  /**
   * For every accepted order the full step is the propagator of the same
   * order applied to the state: `take_step(G, t0, y, h) == propagator(G, t0, h) @ y`.
   */
  lemma {:induction false} TakeStepAppliesPropagator(magnusOrder: int, expm: Matrix -> Matrix, sqrt: real -> real)
    requires magnusOrder in {1, 2, 3}
    ensures var p := GetExponentialTakeStep(magnusOrder, expm, sqrt, true);
      var s := GetExponentialTakeStep(magnusOrder, expm, sqrt, false);
      && p.Ok? && s.Ok? && p.value.JustPropagator? && s.value.FullStep?
      && s.value.takeStep == TakeStepOf(p.value.propagator)
      && forall g, t0, y, h :: s.value.takeStep(g, t0, y, h) == Apply(p.value.propagator(g, t0, h), y)
  {
  }

  /** The second-order exponent of a constant generator is `h A`, whatever the commutator's weight. */
  lemma {:induction false} Magnus2Constant(a: Matrix, h: real, p2: real)
    ensures Magnus2Exponent(h, p2, a, a) == Scale(h, a)
  {
    var w := p2 * (h * h);
    CommutatorSelfIsZero(a);
    ScaleOfZero(w, Commutator(a, a));
    AddZeroRight(Scale(0.5, Scale(h, Add(a, a))), Scale(w, Commutator(a, a)));
    EqualEntrywise(Scale(0.5, Scale(h, Add(a, a))), Scale(h, a));
  }

  /** The third-order exponent of a constant generator is `h A`, whatever the weights. */
  lemma {:induction false} Magnus3Constant(a: Matrix, h: real, c0: real, c1: real)
    ensures Magnus3Exponent(h, c0, c1, a, a, a) == Scale(h, a)
  {
    var a1 := Scale(h, a);
    CancellingSums(a);
    var a2 := Scale(c0 * h, Sub(a, a));
    ScaleOfZero(c0 * h, Sub(a, a));
    var a3 := Scale(c1 * h, Add(Sub(a, Scale(2.0, a)), a));
    ScaleOfZero(c1 * h, Add(Sub(a, Scale(2.0, a)), a));
    var comm1 := Commutator(a1, a2);
    CommutatorWithZero(a1, a2);
    var lhs2 := Add(Scale(2.0, a3), comm1);
    ScaleOfZero(2.0, a3);
    AddZeros(Scale(2.0, a3), comm1);
    CommutatorWithZero(a1, lhs2);
    var comm2 := Scale(1.0 / 60.0, Commutator(lhs2, a1));
    ScaleOfZero(1.0 / 60.0, Commutator(lhs2, a1));
    var right := Add(a2, comm2);
    AddZeros(a2, comm2);
    var left := Add(Sub(Scale(-20.0, a1), a3), comm1);
    CommutatorWithZero(left, right);
    ScaleOfZero(1.0 / 240.0, Commutator(left, right));
    ScaleOfZero(1.0 / 12.0, a3);
    AddZeroRight(a1, Scale(1.0 / 12.0, a3));
    AddZeroRight(a1, Scale(1.0 / 240.0, Commutator(left, right)));
  }

  lemma {:induction false} Magnus2OfConstant(expm: Matrix -> Matrix, sqrt: real -> real, g: Generator, a: Matrix, t0: real, h: real)
    requires forall t :: g(t) == a
    ensures Magnus2(expm, sqrt)(g, t0, h) == expm(Scale(h, a))
  {
    forall p2: real
      ensures Magnus2Exponent(h, p2, a, a) == Scale(h, a)
    {
      Magnus2Constant(a, h, p2);
    }
  }

  lemma {:induction false} Magnus3OfConstant(expm: Matrix -> Matrix, sqrt: real -> real, g: Generator, a: Matrix, t0: real, h: real)
    requires forall t :: g(t) == a
    ensures Magnus3(expm, sqrt)(g, t0, h) == expm(Scale(h, a))
  {
    forall c0: real, c1: real
      ensures Magnus3Exponent(h, c0, c1, a, a, a) == Scale(h, a)
    {
      Magnus3Constant(a, h, c0, c1);
    }
  }

  /**
   * For a constant generator `G(t) = A` every Magnus order is exact and
   * they all agree: each propagator is `expm(h A)`.
   */
  lemma {:induction false} ConstantGeneratorOrdersAgree(magnusOrder: int, expm: Matrix -> Matrix, sqrt: real -> real,
                                     g: Generator, a: Matrix, t0: real, h: real)
    requires magnusOrder in {1, 2, 3}
    requires forall t :: g(t) == a
    ensures var r := GetExponentialTakeStep(magnusOrder, expm, sqrt, true);
      r.Ok? && r.value.JustPropagator? && r.value.propagator(g, t0, h) == expm(Scale(h, a))
  {
    if magnusOrder == 1 {
      assert g(t0 + h / 2.0) == a;
    } else if magnusOrder == 2 {
      Magnus2OfConstant(expm, sqrt, g, a, t0, h);
    } else {
      Magnus3OfConstant(expm, sqrt, g, a, t0, h);
    }
  }
}
