// Dense real matrices and the ring facts the fixed-step solvers rely on:
// the `@` product of matrices and of a matrix with a vector, its
// associativity, and `matrix_commutator`.
//
// All operations are total: an entry outside a matrix reads as 0. Shape
// hypotheses appear only in the lemmas, where they are needed.
module Matrices {

  type Vector = seq<real>
  type Matrix = seq<seq<real>>

  /** `m` has `r` rows of `c` entries each. */
  predicate IsMatrix(m: Matrix, r: nat, c: nat)
  {
    |m| == r && forall i :: 0 <= i < r ==> |m[i]| == c
  }

  /** Number of columns (that of the first row; 0 for a matrix without rows). */
  function Cols(m: Matrix): nat
  {
    if |m| == 0 then 0 else |m[0]|
  }

  /** Entry (i, j), or 0 outside the matrix. */
  function Entry(m: Matrix, i: int, j: int): real
  {
    if 0 <= i < |m| && 0 <= j < |m[i]| then m[i][j] else 0.0
  }

  /** Inner product over the common prefix of `u` and `v`. */
  function Dot(u: Vector, v: Vector): real
  {
    if |u| == 0 || |v| == 0 then 0.0 else u[0] * v[0] + Dot(u[1..], v[1..])
  }

  /** Column j of `m`. */
  function Col(m: Matrix, j: int): (c: Vector)
    ensures |c| == |m|
  {
    seq(|m|, k => Entry(m, k, j))
  }

  /** `a @ v` for a matrix and a 1-D array. */
  function MatVec(a: Matrix, v: Vector): (r: Vector)
    ensures |r| == |a|
  {
    seq(|a|, i requires 0 <= i < |a| => Dot(a[i], v))
  }

  /** The first l entries of the row vector `a @ b`. */
  function VecMat(a: Vector, b: Matrix, l: nat): (r: Vector)
    ensures |r| == l
  {
    seq(l, j => Dot(a, Col(b, j)))
  }

  /** `a @ b` for two matrices. */
  function MatMul(a: Matrix, b: Matrix): (r: Matrix)
    ensures IsMatrix(r, |a|, Cols(b))
  {
    seq(|a|, i requires 0 <= i < |a| => VecMat(a[i], b, Cols(b)))
  }

  /** Entrywise `x - y`, shaped like `x`. */
  function Sub(x: Matrix, y: Matrix): (r: Matrix)
    ensures |r| == |x| && forall i :: 0 <= i < |x| ==> |r[i]| == |x[i]|
  {
    seq(|x|, i requires 0 <= i < |x| => seq(|x[i]|, j requires 0 <= j < |x[i]| => x[i][j] - Entry(y, i, j)))
  }

  /** Entrywise `x + y`, shaped like `x`. */
  function Add(x: Matrix, y: Matrix): (r: Matrix)
    ensures |r| == |x| && forall i :: 0 <= i < |x| ==> |r[i]| == |x[i]|
  {
    seq(|x|, i requires 0 <= i < |x| => seq(|x[i]|, j requires 0 <= j < |x[i]| => x[i][j] + Entry(y, i, j)))
  }

  /** Entrywise `x * m`. */
  function Scale(x: real, m: Matrix): (r: Matrix)
    ensures |r| == |m| && forall i :: 0 <= i < |m| ==> |r[i]| == |m[i]|
  {
    seq(|m|, i requires 0 <= i < |m| => seq(|m[i]|, j requires 0 <= j < |m[i]| => x * m[i][j]))
  }

  /** `matrix_commutator(m1, m2) = m1 @ m2 - m2 @ m1`. */
  function Commutator(m1: Matrix, m2: Matrix): Matrix
  {
    Sub(MatMul(m1, m2), MatMul(m2, m1))
  }

  /** The product of two d x d matrices is d x d. */
  lemma {:induction false} MatMulSquare(a: Matrix, b: Matrix, d: nat)
    requires IsMatrix(a, d, d) && IsMatrix(b, d, d)
    ensures IsMatrix(MatMul(a, b), d, d)
  {
    if d > 0 {
      assert Cols(b) == |b[0]| == d;
    }
  }

  /** The commutator is antisymmetric: [A, B] = -[B, A] for square A and B. */
  lemma {:induction false} CommutatorAntisymmetric(a: Matrix, b: Matrix, d: nat)
    requires IsMatrix(a, d, d) && IsMatrix(b, d, d)
    ensures IsMatrix(Commutator(a, b), d, d)
    ensures forall i, j :: 0 <= i < d && 0 <= j < d ==>
      Commutator(a, b)[i][j] == -Commutator(b, a)[i][j]
  {
    MatMulSquare(a, b, d);
    MatMulSquare(b, a, d);
  }

  /** Every matrix commutes with itself: [A, A] = 0. */
  lemma {:induction false} CommutatorSelfIsZero(a: Matrix)
    ensures forall i, j :: 0 <= i < |Commutator(a, a)| && 0 <= j < |Commutator(a, a)[i]| ==>
      Commutator(a, a)[i][j] == 0.0
  {
  }

  /** `Dot` is linear in its first argument. */
  lemma {:induction false} DotLinear(x: real, u: Vector, w: Vector, z: Vector, v: Vector)
    requires |u| == |w| == |z| == |v|
    requires forall j :: 0 <= j < |z| ==> z[j] == x * u[j] + w[j]
    ensures Dot(z, v) == x * Dot(u, v) + Dot(w, v)
  {
    if |v| > 0 {
      DotLinear(x, u[1..], w[1..], z[1..], v[1..]);
      calc {
        Dot(z, v);
        z[0] * v[0] + Dot(z[1..], v[1..]);
        (x * u[0] + w[0]) * v[0] + x * Dot(u[1..], v[1..]) + Dot(w[1..], v[1..]);
        x * (u[0] * v[0] + Dot(u[1..], v[1..])) + (w[0] * v[0] + Dot(w[1..], v[1..]));
      }
    }
  }

  /** A vector of zeros is orthogonal to everything. */
  lemma {:induction false} DotZero(z: Vector, v: Vector)
    requires forall j :: 0 <= j < |z| ==> z[j] == 0.0
    ensures Dot(z, v) == 0.0
  {
    if |z| > 0 && |v| > 0 {
      DotZero(z[1..], v[1..]);
    }
  }

  /** The first-row split of `a @ B`. */
  lemma {:induction false} VecMatHead(a: Vector, b: Matrix, l: nat)
    requires |a| == |b| > 0
    requires forall k :: 0 <= k < |b| ==> |b[k]| == l
    ensures forall j :: 0 <= j < l ==> VecMat(a, b, l)[j] == a[0] * b[0][j] + VecMat(a[1..], b[1..], l)[j]
  {
    forall j | 0 <= j < l
      ensures VecMat(a, b, l)[j] == a[0] * b[0][j] + VecMat(a[1..], b[1..], l)[j]
    {
      var c := Col(b, j);
      assert c[0] == b[0][j];
      assert c[1..] == Col(b[1..], j);
      DotCons(a, c);
    }
  }

  lemma {:induction false} MatVecSplit(b: Matrix, v: Vector)
    requires |b| > 0
    ensures MatVec(b, v)[0] == Dot(b[0], v) && MatVec(b, v)[1..] == MatVec(b[1..], v)
  {
  }

  /** One row of the associativity law: (a^T B) . v == a . (B v). */
  lemma {:induction false} RowAssoc(a: Vector, b: Matrix, v: Vector, l: nat)
    requires |a| == |b| && |v| == l
    requires forall k :: 0 <= k < |b| ==> |b[k]| == l
    ensures Dot(VecMat(a, b, l), v) == Dot(a, MatVec(b, v))
  {
    if |a| == 0 {
      DotZero(VecMat(a, b, l), v);
    } else {
      var mv := MatVec(b, v);
      VecMatDotHead(a, b, v, l);
      MatVecDotHead(a, b, v);
      assert Dot(VecMat(a[1..], b[1..], l), v) == Dot(a[1..], mv[1..]) by {
        RowAssoc(a[1..], b[1..], v, l);
        MatVecSplit(b, v);
      }
    }
  }

  /** The left side of `RowAssoc` with its first row peeled off. */
  lemma {:induction false} VecMatDotHead(a: Vector, b: Matrix, v: Vector, l: nat)
    requires |a| == |b| > 0 && |v| == l
    requires forall k :: 0 <= k < |b| ==> |b[k]| == l
    ensures Dot(VecMat(a, b, l), v) == a[0] * Dot(b[0], v) + Dot(VecMat(a[1..], b[1..], l), v)
  {
    var z, w := VecMat(a, b, l), VecMat(a[1..], b[1..], l);
    assert |z| == |w| == |b[0]| == l;
    assert forall j :: 0 <= j < |z| ==> z[j] == a[0] * b[0][j] + w[j] by {
      VecMatHead(a, b, l);
    }
    DotLinear(a[0], b[0], w, z, v);
  }

  /** The right side of `RowAssoc` with its first row peeled off. */
  lemma {:induction false} MatVecDotHead(a: Vector, b: Matrix, v: Vector)
    requires |a| == |b| > 0
    ensures Dot(a, MatVec(b, v)) == a[0] * Dot(b[0], v) + Dot(a[1..], MatVec(b, v)[1..])
  {
    var mv := MatVec(b, v);
    assert mv[0] == Dot(b[0], v);
    DotCons(a, mv);
  }

  lemma {:induction false} DotCons(u: Vector, v: Vector)
    requires |u| > 0 && |v| > 0
    ensures Dot(u, v) == u[0] * v[0] + Dot(u[1..], v[1..])
  {
  }

  /** (A B) v == A (B v). */
  lemma {:induction false} MatVecAssoc(a: Matrix, b: Matrix, v: Vector, r: nat, k: nat, l: nat)
    requires IsMatrix(a, r, k) && IsMatrix(b, k, l) && |v| == l
    ensures MatVec(MatMul(a, b), v) == MatVec(a, MatVec(b, v))
  {
    forall i | 0 <= i < r
      ensures MatVec(MatMul(a, b), v)[i] == MatVec(a, MatVec(b, v))[i]
    {
      if k == 0 {
        assert MatMul(a, b)[i] == [];
        assert |a[i]| == 0;
      } else {
        assert Cols(b) == l;
        RowAssoc(a[i], b, v, l);
      }
    }
  }

  /** (A B) C == A (B C) for square A, B and a conformant C. */
  lemma {:induction false} MatMulAssoc(a: Matrix, b: Matrix, c: Matrix, d: nat, m: nat)
    requires IsMatrix(a, d, d) && IsMatrix(b, d, d) && IsMatrix(c, d, m)
    ensures MatMul(MatMul(a, b), c) == MatMul(a, MatMul(b, c))
  {
    var lhs := MatMul(MatMul(a, b), c);
    var rhs := MatMul(a, MatMul(b, c));
    MatMulSquare(a, b, d);
    if d > 0 {
      assert Cols(MatMul(b, c)) == Cols(c);
      forall i | 0 <= i < d
        ensures lhs[i] == rhs[i]
      {
        forall j | 0 <= j < Cols(c)
          ensures lhs[i][j] == rhs[i][j]
        {
          var cj := Col(c, j);
          MatVecAssoc(a, b, cj, d, d, d);
          assert lhs[i][j] == MatVec(MatMul(a, b), cj)[i];
          assert Col(MatMul(b, c), j) == MatVec(b, cj);
          assert rhs[i][j] == MatVec(a, MatVec(b, cj))[i];
        }
      }
    }
  }

  /** Every entry of `m` is 0. */
  predicate IsZero(m: Matrix)
  {
    forall i, j :: 0 <= i < |m| && 0 <= j < |m[i]| ==> m[i][j] == 0.0
  }

  /** Two matrices of the same shape with the same entries are equal. */
  lemma {:induction false} EqualEntrywise(x: Matrix, y: Matrix)
    requires |x| == |y| && forall i :: 0 <= i < |x| ==> |x[i]| == |y[i]|
    requires forall i, j :: 0 <= i < |x| && 0 <= j < |x[i]| ==> x[i][j] == y[i][j]
    ensures x == y
  {
    forall i | 0 <= i < |x|
      ensures x[i] == y[i]
    {
    }
  }

  /** Everything is orthogonal to a vector of zeros. */
  lemma {:induction false} DotZeroRight(u: Vector, z: Vector)
    requires forall j :: 0 <= j < |z| ==> z[j] == 0.0
    ensures Dot(u, z) == 0.0
  {
    if |u| > 0 && |z| > 0 {
      DotZeroRight(u[1..], z[1..]);
    }
  }

  /** A product with a zero factor on either side is zero. */
  lemma {:induction false} MatMulZero(a: Matrix, z: Matrix)
    requires IsZero(z)
    ensures IsZero(MatMul(a, z)) && IsZero(MatMul(z, a))
  {
    forall i, j | 0 <= i < |a| && 0 <= j < Cols(z)
      ensures MatMul(a, z)[i][j] == 0.0
    {
      DotZeroRight(a[i], Col(z, j));
    }
    forall i, j | 0 <= i < |z| && 0 <= j < Cols(a)
      ensures MatMul(z, a)[i][j] == 0.0
    {
      DotZero(z[i], Col(a, j));
    }
  }

  /** The commutator of anything with a zero matrix is zero, on either side. */
  lemma {:induction false} CommutatorWithZero(a: Matrix, z: Matrix)
    requires IsZero(z)
    ensures IsZero(Commutator(a, z)) && IsZero(Commutator(z, a))
  {
    MatMulZero(a, z);
  }

  lemma {:induction false} ScaleOfZero(x: real, z: Matrix)
    requires IsZero(z)
    ensures IsZero(Scale(x, z))
  {
  }

  lemma {:induction false} AddZeros(x: Matrix, y: Matrix)
    requires IsZero(x) && IsZero(y)
    ensures IsZero(Add(x, y))
  {
  }

  /** Adding a zero matrix changes nothing. */
  lemma {:induction false} AddZeroRight(x: Matrix, z: Matrix)
    requires IsZero(z)
    ensures Add(x, z) == x
  {
    EqualEntrywise(Add(x, z), x);
  }

  /** `A - A` and `(A - 2 A) + A` vanish. */
  lemma {:induction false} CancellingSums(a: Matrix)
    ensures IsZero(Sub(a, a)) && IsZero(Add(Sub(a, Scale(2.0, a)), a))
  {
  }
}
