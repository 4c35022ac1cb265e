// The argument handling of `solve_lmde_perturbation`: input validation,
// the choice between the JAX and the plain solver loops, the default and
// the validation of `perturbation_indices`, `merge_expansion_order_terms`,
// and the dispatch on `expansion_method`. The solvers dispatched to and
// `clean_index_multisets` are not part of this model: the dispatch target
// is a tag, and the cleaning function is a parameter.
module PerturbationSetup {
  import opened Results
  import opened Sequences
  import opened IndexCombinations

  /**
   * The errors the argument handling raises: the `QiskitError`s of the
   * checks, the `ValueError` of `itertools` for a negative order, and the
   * unsupported method.
   */
  datatype SetupError =
    | BothNone
    | NotSquare
    | DysonIndices
    | Duplicates
    | NegativeOrder(message: string)
    | Unsupported(expansionMethod: string)

  function Message(e: SetupError): string
  {
    match e
    case BothNone => "Must specify one of expansion_order or expansion_terms when calling solve_lmde_perturbation."
    case NotSquare => "If used, optional arg y0 must be a square 2d array."
    case DysonIndices => "perturbation_indices argument not usable with expansion_method='dyson'."
    case Duplicates => "perturbation_indices argument contains duplicates as multisets."
    case NegativeOrder(m) => m
    case Unsupported(m) => "expansion_method " + m + " not supported."
  }

  /** `itertools.combinations_with_replacement` with a negative length. */
  const NegativeCombinationsMessage: string := "r must be non-negative"
  /** `itertools.product` with a negative `repeat`. */
  const NegativeRepeatMessage: string := "repeat argument cannot be negative"

  /** The solver a valid call is handed to. */
  datatype Solver = Dyson(symmetric: bool) | SymmetricMagnus

  /** Everything the dispatched solver receives from the argument handling. */
  datatype Dispatch = Dispatch(solver: Solver, useJax: bool, expansionTerms: seq<seq<int>>, perturbationIndices: seq<seq<int>>)

  /** The outcome of the argument handling: a dispatch, or the error raised. */
  datatype SetupResult = Accepted(dispatch: Dispatch) | Raised(error: SetupError)

  /** Python's `p in s` on strings. */
  predicate Contains(s: string, p: string)
  {
    exists i | 0 <= i <= |s| - |p| :: OccursAt(s, p, i)
  }

  predicate OccursAt(s: string, p: string, i: int)
  {
    0 <= i && i + |p| <= |s| && s[i..i + |p|] == p
  }

  /** The symmetric flag is set for the two symmetric methods and not for `'dyson'`. */
  lemma {:induction false} SymmetricFlag()
    ensures Contains("symmetric_dyson", "symmetric")
    ensures Contains("symmetric_magnus", "symmetric")
    ensures !Contains("dyson", "symmetric")
  {
    assert OccursAt("symmetric_dyson", "symmetric", 0);
    assert OccursAt("symmetric_magnus", "symmetric", 0);
  }

  /** `expansion_terms or []`. */
  function TermsOrEmpty(terms: Option<seq<seq<int>>>): seq<seq<int>>
  {
    if terms.Some? then terms.value else []
  }

  /**
   * What `merge_expansion_order_terms` returns: the given terms, followed,
   * when an order is given, by every term of that order over the unique
   * indices, as multisets (symmetric) or as ordered tuples.
   */
  function MergeTerms(order: Option<int>, terms: Option<seq<seq<int>>>, pis: seq<seq<int>>, symmetric: bool)
    : Result<seq<seq<int>>>
  {
    var base := TermsOrEmpty(terms);
    if order.None? then Ok(base)
    else if order.value < 0 then Error(if symmetric then NegativeCombinationsMessage else NegativeRepeatMessage)
    else if symmetric then Ok(base + CombinationsWithReplacement(UniqueIndices(pis), order.value))
    else Ok(base + Product(UniqueIndices(pis), order.value))
  }

  /** `merge_expansion_order_terms`: the unique-index loop, then the terms. */
  method MergeExpansionOrderTerms(order: Option<int>, terms: Option<seq<seq<int>>>, pis: seq<seq<int>>, symmetric: bool)
    returns (r: Result<seq<seq<int>>>)
    ensures r == MergeTerms(order, terms, pis, symmetric)
  {
    var uniqueIndices := UniqueIndicesOf(pis);
    var expansionTerms := TermsOrEmpty(terms);
    if order.Some? {
      if order.value < 0 {
        return Error(if symmetric then NegativeCombinationsMessage else NegativeRepeatMessage);
      }
      var upToOrderTerms;
      if symmetric {
        upToOrderTerms := CombinationsWithReplacement(uniqueIndices, order.value);
      } else {
        upToOrderTerms := Product(uniqueIndices, order.value);
      }
      expansionTerms := expansionTerms + upToOrderTerms;
    }
    r := Ok(expansionTerms);
  }

  /**
   * The output begins with `expansion_terms` (or `[]`); without an order it
   * is exactly that list; it fails only for a negative order.
   */
  lemma {:induction false} MergeTermsBase(order: Option<int>, terms: Option<seq<seq<int>>>, pis: seq<seq<int>>, symmetric: bool)
    ensures var r := MergeTerms(order, terms, pis, symmetric);
      && (r.Error? <==> order.Some? && order.value < 0)
      && (r.Ok? ==> |TermsOrEmpty(terms)| <= |r.value| && r.value[..|TermsOrEmpty(terms)|] == TermsOrEmpty(terms))
      && (order.None? ==> r == Ok(TermsOrEmpty(terms)))
  {
    var base := TermsOrEmpty(terms);
    var r := MergeTerms(order, terms, pis, symmetric);
    if r.Ok? && order.Some? {
      assert r.value[..|base|] == base;
    }
  }

  /**
   * Symmetric case: the appended terms are the `MultiChoose(n, k)` (that is
   * `C(n + k - 1, k)`, by `MultiChooseIsBinomial`) multisets of size k
   * over the n unique indices, pairwise distinct: exactly the length-k
   * sequences over them that are non-decreasing by position, so every
   * size-k multiset appears once.
   */
  lemma {:induction false} MergeTermsSymmetric(order: Option<int>, terms: Option<seq<seq<int>>>, pis: seq<seq<int>>)
    requires order.Some? && order.value >= 0
    ensures var r := MergeTerms(order, terms, pis, true);
      var u := UniqueIndices(pis);
      var added := CombinationsWithReplacement(u, order.value);
      && r == Ok(TermsOrEmpty(terms) + added)
      && |added| == MultiChoose(|u|, order.value)
      && (forall t :: t in added <==> |t| == order.value && NonDecreasingIn(u, t))
      && NoDuplicates(added)
  {
    var u := UniqueIndices(pis);
    var k := order.value;
    UniqueIndicesSpec(pis);
    CombinationsSpec(u, k);
  }

  /**
   * Non-symmetric case: the appended terms are the `n ** k` ordered tuples
   * of length k over the unique indices, exactly the sequences of that
   * length over them, pairwise distinct, the first position varying slowest.
   */
  lemma {:induction false} MergeTermsOrdered(order: Option<int>, terms: Option<seq<seq<int>>>, pis: seq<seq<int>>)
    requires order.Some? && order.value >= 0
    ensures var r := MergeTerms(order, terms, pis, false);
      var base := TermsOrEmpty(terms);
      var u := UniqueIndices(pis);
      var added := Product(u, order.value);
      && r.Ok? && r.value == base + added
      && |added| == Pow(|u|, order.value)
      && (forall t :: t in added <==> |t| == order.value && forall i :: 0 <= i < |t| ==> t[i] in u)
      && NoDuplicates(added)
  {
    var u := UniqueIndices(pis);
    var k := order.value;
    UniqueIndicesSpec(pis);
    forall t
      ensures t in Product(u, k) <==> |t| == k && forall i :: 0 <= i < |t| ==> t[i] in u
    {
      ProductMembership(u, k, t);
    }
    ProductDistinct(u, k);
  }

  /** The default `perturbation_indices`: `[[idx] for idx in range(len(perturbations))]`. */
  function DefaultIndices(n: nat): (pis: seq<seq<int>>)
  {
    seq(n, i => [i])
  }

  /** Whether the JAX loops are used: every perturbation, and the generator if given, evaluates to a JAX array. */
  predicate UsesJax(perturbationsJax: seq<bool>, generatorJax: Option<bool>)
  {
    (forall i :: 0 <= i < |perturbationsJax| ==> perturbationsJax[i]) && (generatorJax.Some? ==> generatorJax.value)
  }

  /**
   * What `solve_lmde_perturbation` does with its arguments before handing
   * them to a solver, in the order of its checks. `y0Shape` is the shape of
   * `y0` when given, `nPerturbations` the length of `perturbations`, and
   * `clean` stands for `clean_index_multisets`.
   */
  function Setup(order: Option<int>, terms: Option<seq<seq<int>>>, y0Shape: Option<seq<int>>,
                 perturbationIndices: Option<seq<seq<int>>>, expansionMethod: string, nPerturbations: nat,
                 useJax: bool, clean: seq<seq<int>> -> seq<seq<int>>): SetupResult
  {
    if order.None? && terms.None? then Raised(BothNone)
    else if y0Shape.Some? && (|y0Shape.value| != 2 || y0Shape.value[0] != y0Shape.value[1]) then Raised(NotSquare)
    else if perturbationIndices.Some? && expansionMethod == "dyson" then Raised(DysonIndices)
    else if perturbationIndices.Some? && |clean(perturbationIndices.value)| != |perturbationIndices.value| then
      Raised(Duplicates)
    else
      var pis := if perturbationIndices.Some? then clean(perturbationIndices.value) else DefaultIndices(nPerturbations);
      var merged := MergeTerms(order, terms, pis, Contains(expansionMethod, "symmetric"));
      if merged.Error? then Raised(NegativeOrder(merged.message))
      else if expansionMethod == "dyson" || expansionMethod == "symmetric_dyson" then
        Accepted(Dispatch(Dyson(expansionMethod == "symmetric_dyson"), useJax, merged.value, pis))
      else if expansionMethod == "symmetric_magnus" then
        Accepted(Dispatch(SymmetricMagnus, useJax, merged.value, pis))
      else Raised(Unsupported(expansionMethod))
  }

  /**
   * `solve_lmde_perturbation` up to the call of the solver: the checks, the
   * `use_jax` loop over the perturbations' backends, the indices, the merge
   * of the terms, and the dispatch.
   */
  method SolveLmdePerturbation(order: Option<int>, terms: Option<seq<seq<int>>>, y0Shape: Option<seq<int>>,
                               perturbationIndices: Option<seq<seq<int>>>, expansionMethod: string,
                               perturbationsJax: seq<bool>, generatorJax: Option<bool>,
                               clean: seq<seq<int>> -> seq<seq<int>>)
    returns (r: SetupResult)
    ensures r == Setup(order, terms, y0Shape, perturbationIndices, expansionMethod, |perturbationsJax|,
                       UsesJax(perturbationsJax, generatorJax), clean)
  {
    if order.None? && terms.None? {
      return Raised(BothNone);
    }
    if y0Shape.Some? {
      if |y0Shape.value| != 2 || y0Shape.value[0] != y0Shape.value[1] {
        return Raised(NotSquare);
      }
    }
    var useJax := true;
    var i := 0;
    while i < |perturbationsJax|
      invariant 0 <= i <= |perturbationsJax|
      invariant useJax && forall j :: 0 <= j < i ==> perturbationsJax[j]
    {
      if !perturbationsJax[i] {
        useJax := false;
        break;
      }
      i := i + 1;
    }
    if useJax && generatorJax.Some? {
      if !generatorJax.value {
        useJax := false;
      }
    }
    assert useJax == UsesJax(perturbationsJax, generatorJax);
    var pis;
    if perturbationIndices.Some? {
      if expansionMethod == "dyson" {
        return Raised(DysonIndices);
      }
      var perturbationsLen := |perturbationIndices.value|;
      pis := clean(perturbationIndices.value);
      if |pis| != perturbationsLen {
        return Raised(Duplicates);
      }
    } else {
      pis := seq(|perturbationsJax|, idx => [idx]);
    }
    var merged := MergeExpansionOrderTerms(order, terms, pis, Contains(expansionMethod, "symmetric"));
    if merged.Error? {
      return Raised(NegativeOrder(merged.message));
    }
    if expansionMethod == "dyson" || expansionMethod == "symmetric_dyson" {
      var symmetric := expansionMethod == "symmetric_dyson";
      return Accepted(Dispatch(Dyson(symmetric), useJax, merged.value, pis));
    } else if expansionMethod == "symmetric_magnus" {
      return Accepted(Dispatch(SymmetricMagnus, useJax, merged.value, pis));
    }
    r := Raised(Unsupported(expansionMethod));
  }

  /** Neither `expansion_order` nor `expansion_terms`: always the first error, whatever else is passed. */
  lemma {:induction false} SetupRequiresOrderOrTerms(order: Option<int>, terms: Option<seq<seq<int>>>, y0Shape: Option<seq<int>>,
                                  perturbationIndices: Option<seq<seq<int>>>, expansionMethod: string, nPerturbations: nat,
                                  useJax: bool, clean: seq<seq<int>> -> seq<seq<int>>)
    ensures (Setup(order, terms, y0Shape, perturbationIndices, expansionMethod, nPerturbations, useJax, clean)
             == Raised(BothNone)) <==> order.None? && terms.None?
  {
  }

  /** A given `y0` that is not a square 2-D array is rejected once an order or terms are given. */
  lemma {:induction false} SetupRejectsNonSquareY0(order: Option<int>, terms: Option<seq<seq<int>>>, y0Shape: Option<seq<int>>,
                                perturbationIndices: Option<seq<seq<int>>>, expansionMethod: string, nPerturbations: nat,
                                useJax: bool, clean: seq<seq<int>> -> seq<seq<int>>)
    requires order.Some? || terms.Some?
    requires y0Shape.Some? && (|y0Shape.value| != 2 || y0Shape.value[0] != y0Shape.value[1])
    ensures Setup(order, terms, y0Shape, perturbationIndices, expansionMethod, nPerturbations, useJax, clean)
         == Raised(NotSquare)
  {
  }

  /** `perturbation_indices` together with `'dyson'` is rejected once the earlier checks pass. */
  lemma {:induction false} SetupRejectsIndicesWithDyson(order: Option<int>, terms: Option<seq<seq<int>>>, y0Shape: Option<seq<int>>,
                                     perturbationIndices: Option<seq<seq<int>>>, nPerturbations: nat,
                                     useJax: bool, clean: seq<seq<int>> -> seq<seq<int>>)
    requires order.Some? || terms.Some?
    requires y0Shape.None? || (|y0Shape.value| == 2 && y0Shape.value[0] == y0Shape.value[1])
    requires perturbationIndices.Some?
    ensures Setup(order, terms, y0Shape, perturbationIndices, "dyson", nPerturbations, useJax, clean)
         == Raised(DysonIndices)
  {
  }

  /**
   * A call is accepted exactly when every check passes, the order (if any)
   * is not negative and the method is one of the three supported ones; then
   * the solver tag follows the method, the symmetric flag is the substring
   * test, the indices are the cleaned ones or one singleton per
   * perturbation, and the terms are the merged ones.
   */
  lemma {:induction false} SetupAccepts(order: Option<int>, terms: Option<seq<seq<int>>>, y0Shape: Option<seq<int>>,
                     perturbationIndices: Option<seq<seq<int>>>, expansionMethod: string, nPerturbations: nat,
                     useJax: bool, clean: seq<seq<int>> -> seq<seq<int>>)
    ensures var r := Setup(order, terms, y0Shape, perturbationIndices, expansionMethod, nPerturbations, useJax, clean);
      var pis := if perturbationIndices.Some? then clean(perturbationIndices.value) else DefaultIndices(nPerturbations);
      && (r.Accepted? <==>
            && (order.Some? || terms.Some?)
            && (y0Shape.None? || (|y0Shape.value| == 2 && y0Shape.value[0] == y0Shape.value[1]))
            && (perturbationIndices.Some? ==>
                  expansionMethod != "dyson" && |clean(perturbationIndices.value)| == |perturbationIndices.value|)
            && (order.None? || order.value >= 0)
            && expansionMethod in ["dyson", "symmetric_dyson", "symmetric_magnus"])
      && (r.Accepted? ==>
            var d := r.dispatch;
            && d.useJax == useJax
            && d.perturbationIndices == pis
            && (perturbationIndices.None? ==> |pis| == nPerturbations && forall i :: 0 <= i < nPerturbations ==> pis[i] == [i])
            && (d.solver.Dyson? <==> expansionMethod != "symmetric_magnus")
            && (d.solver.Dyson? ==> (d.solver.symmetric <==> expansionMethod == "symmetric_dyson"))
            && MergeTerms(order, terms, pis, expansionMethod != "dyson") == Ok(d.expansionTerms))
  {
    SymmetricFlag();
  }

  /** The `use_jax` loop decides exactly `UsesJax`. */
  lemma {:induction false} UsesJaxMeaning(perturbationsJax: seq<bool>, generatorJax: Option<bool>)
    ensures UsesJax(perturbationsJax, generatorJax) <==>
      (false !in perturbationsJax) && generatorJax != Some(false)
  {
  }
}
