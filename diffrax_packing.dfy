// The complex/real packing of the diffrax wrapper: diffrax integrates real
// arrays, so a complex state is stored as its real parts followed by its
// imaginary parts (`c2r`), unpacked by splitting in half (`r2c`), and the
// right-hand side is conjugated by the two (`real_rhs`). Also the check
// that `t_eval` and a `saveat` keyword argument are not both given.
//
// States are 1-D complex arrays; `r2c` runs on `jax.numpy` arrays and follows
// their broadcasting rules for the two halves of an odd-length input.
module DiffraxPacking {
  import opened Results

  datatype Complex = Complex(re: real, im: real)

  /** `jnp.real(arr)`. */
  function RealParts(x: seq<Complex>): (r: seq<real>)
    ensures |r| == |x| && forall i :: 0 <= i < |x| ==> r[i] == x[i].re
  {
    seq(|x|, i requires 0 <= i < |x| => x[i].re)
  }

  /** `jnp.imag(arr)`. */
  function ImagParts(x: seq<Complex>): (r: seq<real>)
    ensures |r| == |x| && forall i :: 0 <= i < |x| ==> r[i] == x[i].im
  {
    seq(|x|, i requires 0 <= i < |x| => x[i].im)
  }

  /** `c2r`: `jnp.concatenate([jnp.real(arr), jnp.imag(arr)])`. */
  function C2R(x: seq<Complex>): (r: seq<real>)
    ensures |r| == 2 * |x|
    ensures forall i :: 0 <= i < |x| ==> r[i] == x[i].re && r[|x| + i] == x[i].im
  {
    RealParts(x) + ImagParts(x)
  }

  /**
   * Stands for the incompatible-shapes error `jax.numpy` raises when two 1-D
   * shapes do not broadcast; only its opening words are kept, not the shapes.
   */
  const BroadcastMessage: string := "Incompatible shapes for broadcasting"

  /**
   * `re + 1j * im` on 1-D `jax.numpy` arrays under broadcasting: equal lengths
   * add entrywise, a length-1 operand is repeated along the other, and any
   * other pair of lengths is an error.
   */
  function Broadcast(re: seq<real>, im: seq<real>): Result<seq<Complex>>
  {
    if |re| == |im| then Ok(seq(|re|, i requires 0 <= i < |re| => Complex(re[i], im[i])))
    else if |re| == 1 then Ok(seq(|im|, i requires 0 <= i < |im| => Complex(re[0], im[i])))
    else if |im| == 1 then Ok(seq(|re|, i requires 0 <= i < |re| => Complex(re[i], im[0])))
    else Error(BroadcastMessage)
  }

  /** `r2c`: `arr[:size] + 1j * arr[size:]` with `size = arr.shape[0] // 2`. */
  function R2C(arr: seq<real>): Result<seq<Complex>>
  {
    var size := |arr| / 2;
    Broadcast(arr[..size], arr[size..])
  }

  /**
   * What `r2c` does by length: an even-length array gives half as many
   * entries, entry i being `arr[i] + 1j * arr[len/2 + i]`; length 1 gives
   * the empty array and length 3 gives two entries sharing the real part
   * `arr[0]` (broadcasting); every other odd length is an error.
   */
  lemma {:induction false} R2CByLength(arr: seq<real>)
    ensures var r := R2C(arr);
      var h := |arr| / 2;
      && (|arr| % 2 == 0 ==> r.Ok? && |r.value| == h && forall i :: 0 <= i < h ==> r.value[i] == Complex(arr[i], arr[h + i]))
      && (|arr| == 1 ==> r == Ok([]))
      && (|arr| == 3 ==> r == Ok([Complex(arr[0], arr[1]), Complex(arr[0], arr[2])]))
      && (|arr| % 2 == 1 && |arr| != 1 && |arr| != 3 ==> r == Error(BroadcastMessage))
  {
    if |arr| == 3 {
      assert R2C(arr).value == [Complex(arr[0], arr[1]), Complex(arr[0], arr[2])];
    }
  }

  /** Round trip: `r2c(c2r(x)) == x`. */
  lemma {:induction false} R2COfC2R(x: seq<Complex>)
    ensures R2C(C2R(x)) == Ok(x)
  {
    var arr := C2R(x);
    assert |arr| / 2 == |x|;
    assert R2C(arr).value == x;
  }

  /** The other way round: an even-length array is `c2r` of what `r2c` makes of it. */
  lemma {:induction false} C2ROfR2C(arr: seq<real>)
    requires |arr| % 2 == 0
    ensures R2C(arr).Ok? && C2R(R2C(arr).value) == arr
  {
    R2CByLength(arr);
    assert C2R(R2C(arr).value) == arr;
  }

  /** `real_rhs(rhs)(t, y) = c2r(rhs(t, r2c(y)))`; an `r2c` error propagates. */
  function RealRhs(rhs: (real, seq<Complex>) -> seq<Complex>, t: real, y: seq<real>): Result<seq<real>>
  {
    var c := R2C(y);
    if c.Error? then Error(c.message) else Ok(C2R(rhs(t, c.value)))
  }

  /** On packed states the real right-hand side is the packed complex one: `real_rhs(rhs)(t, c2r(y)) == c2r(rhs(t, y))`. */
  lemma {:induction false} RealRhsOfPacked(rhs: (real, seq<Complex>) -> seq<Complex>, t: real, y: seq<Complex>)
    ensures RealRhs(rhs, t, C2R(y)) == Ok(C2R(rhs(t, y)))
  {
    R2COfC2R(y);
  }

  /** The output conversion: `r2c` applied to the state at every output time. */
  function RowsToComplex(ys: seq<seq<real>>): Result<seq<seq<Complex>>>
    decreases |ys|
  {
    if |ys| == 0 then Ok([])
    else
      var head := R2C(ys[0]);
      var tail := RowsToComplex(ys[1..]);
      if head.Error? then Error(head.message)
      else if tail.Error? then tail
      else Ok([head.value] + tail.value)
  }

  /** Packing every state of a trajectory and converting the output gives the trajectory back. */
  lemma {:induction false} RowsToComplexOfPacked(zs: seq<seq<Complex>>)
    ensures RowsToComplex(seq(|zs|, i requires 0 <= i < |zs| => C2R(zs[i]))) == Ok(zs)
    decreases |zs|
  {
    if |zs| > 0 {
      var ys := seq(|zs|, i requires 0 <= i < |zs| => C2R(zs[i]));
      assert ys[1..] == seq(|zs[1..]|, i requires 0 <= i < |zs[1..]| => C2R(zs[1..][i]));
      RowsToComplexOfPacked(zs[1..]);
      R2COfC2R(zs[0]);
      assert [zs[0]] + zs[1..] == zs;
    }
  }

  /** A keyword argument passed on to `diffeqsolve`: a `SaveAt(ts=...)` or any other value. */
  datatype Kwarg<V> = SaveAtTimes(ts: seq<real>) | Passed(value: V)

  const BothSaveMessage: string :=
    "Only one of t_eval or saveat can be passed when using a diffrax solver, but both were specified."

  /**
   * The `saveat` handling of `diffrax_solver`: an error when `saveat` is
   * among the keyword arguments and `t_eval` is given, otherwise a given
   * `t_eval` becomes `kwargs["saveat"] = SaveAt(ts=t_eval)`.
   */
  function SaveAtKwargs<V>(kwargs: map<string, Kwarg<V>>, tEval: Option<seq<real>>): Result<map<string, Kwarg<V>>>
  {
    if "saveat" in kwargs && tEval.Some? then Error(BothSaveMessage)
    else if tEval.Some? then Ok(kwargs["saveat" := SaveAtTimes(tEval.value)])
    else Ok(kwargs)
  }

  /**
   * The check fails exactly when both are given; otherwise every other
   * keyword argument is passed on unchanged, `saveat` is present when it
   * was or when `t_eval` is given, and then it holds `t_eval`.
   */
  lemma {:induction false} SaveAtKwargsSpec<V>(kwargs: map<string, Kwarg<V>>, tEval: Option<seq<real>>)
    ensures var r := SaveAtKwargs(kwargs, tEval);
      && (r.Error? <==> "saveat" in kwargs && tEval.Some?)
      && (r.Ok? ==>
            && (forall key :: key != "saveat" ==> (key in r.value <==> key in kwargs))
            && (forall key :: key != "saveat" && key in kwargs ==> r.value[key] == kwargs[key])
            && ("saveat" in r.value <==> "saveat" in kwargs || tEval.Some?)
            && (tEval.Some? ==> r.value["saveat"] == SaveAtTimes(tEval.value))
            && (tEval.None? ==> r.value == kwargs))
  {
  }
}
