// The index bookkeeping of `merge_expansion_order_terms`: the unique
// perturbation indices in first-occurrence order, and the two `itertools`
// enumerations it draws terms from, `product(u, repeat=k)` and
// `combinations_with_replacement(u, k)`, with their counts, the shape of
// their terms and the order they come in.
module IndexCombinations {
  import opened Sequences

  /** The multisets of `perturbation_indices` one after another. */
  function Flatten(xss: seq<seq<int>>): (r: seq<int>)
    decreases |xss|
  {
    if |xss| == 0 then [] else Flatten(xss[..|xss| - 1]) + xss[|xss| - 1]
  }

  /** An index occurs in the flattened list exactly when it occurs in one of the multisets. */
  lemma {:induction false} FlattenMembership(xss: seq<seq<int>>, x: int)
    ensures x in Flatten(xss) <==> exists i :: 0 <= i < |xss| && x in xss[i]
    decreases |xss|
  {
    if |xss| > 0 {
      var m := |xss| - 1;
      FlattenMembership(xss[..m], x);
      assert forall i :: 0 <= i < m ==> xss[..m][i] == xss[i];
    }
  }

  /** Position of the first occurrence of `x`. */
  function FirstIndex(xs: seq<int>, x: int): (k: nat)
    requires x in xs
    ensures k < |xs| && xs[k] == x && forall j :: 0 <= j < k ==> xs[j] != x
  {
    if xs[0] == x then 0 else 1 + FirstIndex(xs[1..], x)
  }

  /** Keeping the first occurrence of every element, in order. */
  function DedupFirst(xs: seq<int>): (r: seq<int>)
    decreases |xs|
  {
    if |xs| == 0 then []
    else
      var p := DedupFirst(xs[..|xs| - 1]);
      if xs[|xs| - 1] in p then p else p + [xs[|xs| - 1]]
  }

  /** `unique_indices`: every index of `perturbation_indices` once, in first-occurrence order. */
  function UniqueIndices(pis: seq<seq<int>>): seq<int>
  {
    DedupFirst(Flatten(pis))
  }

  lemma {:induction false} FirstIndexInPrefix(p: seq<int>, x: int, y: int)
    requires y in p
    ensures y in p + [x] && FirstIndex(p + [x], y) == FirstIndex(p, y)
  {
    var k := FirstIndex(p, y);
    var q := p + [x];
    assert q[k] == y && forall j :: 0 <= j < k ==> q[j] != y;
    FirstIndexUnique(q, y, k);
  }

  lemma {:induction false} FirstIndexOfLast(p: seq<int>, x: int)
    requires x !in p
    ensures FirstIndex(p + [x], x) == |p|
  {
    var q := p + [x];
    assert q[|p|] == x && forall j :: 0 <= j < |p| ==> q[j] != x;
    FirstIndexUnique(q, x, |p|);
  }

  /** The first occurrence is the one with no earlier occurrence. */
  lemma {:induction false} FirstIndexUnique(xs: seq<int>, x: int, k: nat)
    requires k < |xs| && xs[k] == x && forall j :: 0 <= j < k ==> xs[j] != x
    ensures FirstIndex(xs, x) == k
  {
  }

  /**
   * Deduplication keeps no element twice, keeps every element, adds none,
   * and lists the elements in the order of their first occurrences.
   */
  lemma {:induction false} DedupFirstSpec(xs: seq<int>)
    ensures var r := DedupFirst(xs);
      && NoDuplicates(r)
      && (forall x :: x in r <==> x in xs)
      && forall i, j :: 0 <= i < j < |r| ==> r[i] in xs && r[j] in xs && FirstIndex(xs, r[i]) < FirstIndex(xs, r[j])
    decreases |xs|
  {
    if |xs| > 0 {
      var m := |xs| - 1;
      var p, x := xs[..m], xs[m];
      assert xs == p + [x];
      DedupFirstSpec(p);
      var rp := DedupFirst(p);
      var r := DedupFirst(xs);
      forall y | y in p
        ensures FirstIndex(xs, y) == FirstIndex(p, y)
      {
        FirstIndexInPrefix(p, x, y);
      }
      if x !in rp {
        assert r == rp + [x];
        FirstIndexOfLast(p, x);
        forall i, j | 0 <= i < j < |r|
          ensures FirstIndex(xs, r[i]) < FirstIndex(xs, r[j])
        {
          if j == |rp| {
            assert r[i] == rp[i] && r[i] in p;
          } else {
            assert r[i] == rp[i] && r[j] == rp[j];
          }
        }
      }
    }
  }

  /** `unique_indices` has no duplicates, lists exactly the indices that occur, in first-occurrence order. */
  lemma {:induction false} UniqueIndicesSpec(pis: seq<seq<int>>)
    ensures var u := UniqueIndices(pis);
      && NoDuplicates(u)
      && (forall x :: x in u <==> exists i :: 0 <= i < |pis| && x in pis[i])
      && forall i, j :: 0 <= i < j < |u| ==>
           u[i] in Flatten(pis) && u[j] in Flatten(pis) && FirstIndex(Flatten(pis), u[i]) < FirstIndex(Flatten(pis), u[j])
  {
    var xs := Flatten(pis);
    var u := UniqueIndices(pis);
    assert NoDuplicates(u) && (forall x :: x in u <==> x in xs)
      && forall i, j :: 0 <= i < j < |u| ==> u[i] in xs && u[j] in xs && FirstIndex(xs, u[i]) < FirstIndex(xs, u[j])
    by {
      DedupFirstSpec(xs);
    }
    forall x
      ensures x in u <==> exists i :: 0 <= i < |pis| && x in pis[i]
    {
      FlattenMembership(pis, x);
    }
  }


  /**
   * The nested loop that builds `unique_indices`, appending every index of
   * every multiset that is not yet in the list.
   */
  method UniqueIndicesOf(pis: seq<seq<int>>) returns (uniqueIndices: seq<int>)
    ensures uniqueIndices == UniqueIndices(pis)
  {
    uniqueIndices := [];
    var i := 0;
    while i < |pis|
      invariant 0 <= i <= |pis|
      invariant uniqueIndices == DedupFirst(Flatten(pis[..i]))
    {
      var indexSet := pis[i];
      var j := 0;
      assert Flatten(pis[..i]) + indexSet[..0] == Flatten(pis[..i]);
      while j < |indexSet|
        invariant 0 <= j <= |indexSet|
        invariant uniqueIndices == DedupFirst(Flatten(pis[..i]) + indexSet[..j])
      {
        var idx := indexSet[j];
        assert (Flatten(pis[..i]) + indexSet[..j + 1])[..|Flatten(pis[..i]) + indexSet[..j + 1]| - 1]
            == Flatten(pis[..i]) + indexSet[..j];
        if idx !in uniqueIndices {
          uniqueIndices := uniqueIndices + [idx];
        }
        j := j + 1;
      }
      assert indexSet[..j] == pis[i];
      assert pis[..i + 1][..i] == pis[..i];
      i := i + 1;
    }
    assert pis[..i] == pis;
  }

  /** `[x] + t` for every `t` of `ts`, in order. */
  function PrependEach(x: int, ts: seq<seq<int>>): (r: seq<seq<int>>)
    ensures |r| == |ts| && forall i :: 0 <= i < |ts| ==> r[i] == [x] + ts[i]
  {
    seq(|ts|, i requires 0 <= i < |ts| => [x] + ts[i])
  }

  /** `x ** k` on naturals. */
  function Pow(x: nat, k: nat): nat
  {
    if k == 0 then 1 else x * Pow(x, k - 1)
  }

  /** Every head of `xs` in turn, each followed by every tail of `ts`. */
  function ProductHeads(xs: seq<int>, ts: seq<seq<int>>): (r: seq<seq<int>>)
    ensures |r| == |xs| * |ts|
    decreases |xs|
  {
    if |xs| == 0 then []
    else
      assert |xs| * |ts| == |ts| + (|xs| - 1) * |ts|;
      PrependEach(xs[0], ts) + ProductHeads(xs[1..], ts)
  }

  /** `product(u, repeat=k)`: the first position varies slowest. */
  function Product(u: seq<int>, k: nat): (r: seq<seq<int>>)
    ensures |r| == Pow(|u|, k)
    decreases k
  {
    if k == 0 then [[]] else ProductHeads(u, Product(u, k - 1))
  }

  lemma {:induction false} ProductHeadsMembership(xs: seq<int>, ts: seq<seq<int>>, t: seq<int>)
    ensures t in ProductHeads(xs, ts) <==> |t| >= 1 && t[0] in xs && t[1..] in ts
    decreases |xs|
  {
    if |xs| > 0 {
      ProductHeadsMembership(xs[1..], ts, t);
      var block := PrependEach(xs[0], ts);
      if t in block {
        var i :| 0 <= i < |block| && block[i] == t;
        assert t[1..] == ts[i];
      }
      if |t| >= 1 && t[0] == xs[0] && t[1..] in ts {
        var i :| 0 <= i < |ts| && ts[i] == t[1..];
        assert block[i] == t;
      }
    }
  }

  /** The tuples of `product` are exactly the length-k sequences over `u`. */
  lemma {:induction false} ProductMembership(u: seq<int>, k: nat, t: seq<int>)
    ensures t in Product(u, k) <==> |t| == k && forall i :: 0 <= i < |t| ==> t[i] in u
    decreases k
  {
    if k == 0 {
      assert |t| == 0 ==> t == [];
    } else {
      ProductHeadsMembership(u, Product(u, k - 1), t);
      if |t| >= 1 {
        ProductMembership(u, k - 1, t[1..]);
        assert forall i :: 1 <= i < |t| ==> t[i] == t[1..][i - 1];
      }
    }
  }

  lemma {:induction false} ProductHeadsAt(xs: seq<int>, ts: seq<seq<int>>, q: int, r: int)
    requires 0 <= q < |xs| && 0 <= r < |ts|
    ensures 0 <= q * |ts| + r < |xs| * |ts|
    ensures ProductHeads(xs, ts)[q * |ts| + r] == [xs[q]] + ts[r]
    decreases q
  {
    var m := |ts|;
    var idx := q * m + r;
    assert 0 <= idx < |xs| * m by {
      IndexBound(q, m, r, |xs|);
    }
    if q > 0 {
      var idx' := (q - 1) * m + r;
      assert idx == m + idx' by {
        IndexShift(q, m, r);
      }
      ProductHeadsAt(xs[1..], ts, q - 1, r);
      assert ProductHeads(xs, ts)[idx] == ProductHeads(xs[1..], ts)[idx'];
    }
  }

  lemma {:induction false} IndexBound(q: int, m: int, r: int, n: int)
    requires 0 <= q < n && 0 <= r < m
    ensures 0 <= q * m + r < n * m
  {
    assert q * m + r < (q + 1) * m;
    assert (q + 1) * m <= n * m;
  }

  lemma {:induction false} IndexShift(q: int, m: int, r: int)
    ensures q * m + r == m + ((q - 1) * m + r)
  {
  }

  /**
   * Lexicographic order: with `m = n ** (k - 1)`, entry `q * m + r` of
   * `product(u, repeat=k)` is `u[q]` followed by entry `r` of the tuples
   * of length `k - 1`.
   */
  lemma {:induction false} ProductAt(u: seq<int>, k: nat, q: int, r: int)
    requires k >= 1 && 0 <= q < |u| && 0 <= r < Pow(|u|, k - 1)
    ensures 0 <= q * Pow(|u|, k - 1) + r < |Product(u, k)|
    ensures Product(u, k)[q * Pow(|u|, k - 1) + r] == [u[q]] + Product(u, k - 1)[r]
  {
    ProductHeadsAt(u, Product(u, k - 1), q, r);
  }

  /** `C(n + k - 1, k)` in Pascal's recursion: the number of size-k multisets over n elements. */
  function MultiChoose(n: nat, k: nat): nat
    decreases k, n
  {
    if k == 0 then 1 else if n == 0 then 0 else MultiChoose(n, k - 1) + MultiChoose(n - 1, k)
  }

  /** The binomial coefficient by Pascal's rule. */
  function Binomial(n: nat, k: nat): nat
    decreases n
  {
    if k == 0 then 1 else if n == 0 then 0 else Binomial(n - 1, k - 1) + Binomial(n - 1, k)
  }

  /** Multisets of size k over n >= 1 elements number `C(n + k - 1, k)`. */
  lemma {:induction false} MultiChooseIsBinomial(n: nat, k: nat)
    requires n >= 1
    ensures MultiChoose(n, k) == Binomial(n + k - 1, k)
    decreases k, n
  {
    if k > 0 {
      MultiChooseIsBinomial(n, k - 1);
      if n == 1 {
        assert MultiChoose(0, k) == 0;
        BinomialBeyond(k - 1, k);
      } else {
        MultiChooseIsBinomial(n - 1, k);
      }
    }
  }

  lemma {:induction false} BinomialBeyond(n: nat, k: nat)
    requires k > n
    ensures Binomial(n, k) == 0
    decreases n
  {
    if n > 0 {
      BinomialBeyond(n - 1, k - 1);
      BinomialBeyond(n - 1, k);
    }
  }

  /**
   * `combinations_with_replacement(u, k)`: the terms that start with `u[0]`,
   * then those without it.
   */
  function CombinationsWithReplacement(u: seq<int>, k: nat): seq<seq<int>>
    decreases k, |u|
  {
    if k == 0 then [[]]
    else if |u| == 0 then []
    else PrependEach(u[0], CombinationsWithReplacement(u, k - 1)) + CombinationsWithReplacement(u[1..], k)
  }

  /** `combinations_with_replacement` yields `C(n + k - 1, k)` terms. */
  lemma {:induction false} CombinationsCount(u: seq<int>, k: nat)
    ensures |CombinationsWithReplacement(u, k)| == MultiChoose(|u|, k)
    decreases k, |u|
  {
    if k > 0 && |u| > 0 {
      var a := PrependEach(u[0], CombinationsWithReplacement(u, k - 1));
      var b := CombinationsWithReplacement(u[1..], k);
      assert CombinationsWithReplacement(u, k) == a + b;
      CombinationsCount(u, k - 1);
      CombinationsCount(u[1..], k);
      assert MultiChoose(|u|, k) == MultiChoose(|u|, k - 1) + MultiChoose(|u[1..]|, k);
    }
  }

  /**
   * A term is non-decreasing by position in `u`: its entries occur in `u`,
   * and their first occurrences in `u` never move backwards.
   */
  predicate NonDecreasingIn(u: seq<int>, t: seq<int>)
  {
    && (forall i :: 0 <= i < |t| ==> t[i] in u)
    && forall i, j :: 0 <= i < j < |t| ==> FirstIndex(u, t[i]) <= FirstIndex(u, t[j])
  }

  /** Past a head that does not recur, positions in `u` are one more than in `u[1..]`. */
  lemma {:induction false} FirstIndexOfTail(u: seq<int>, x: int)
    requires |u| > 0 && NoDuplicates(u) && x in u[1..]
    ensures x in u && FirstIndex(u, x) == 1 + FirstIndex(u[1..], x)
  {
    var f := 1 + FirstIndex(u[1..], x);
    assert u[f] == x;
  }

  /** Every term of `combinations_with_replacement(u, k)` has length k and is non-decreasing in `u`. */
  lemma {:induction false} CombinationsTerms(u: seq<int>, k: nat, t: seq<int>)
    requires NoDuplicates(u) && t in CombinationsWithReplacement(u, k)
    ensures |t| == k && NonDecreasingIn(u, t)
    decreases k, |u|
  {
    if k > 0 {
      var inner := CombinationsWithReplacement(u, k - 1);
      var block := PrependEach(u[0], inner);
      assert CombinationsWithReplacement(u, k) == block + CombinationsWithReplacement(u[1..], k);
      if t in block {
        var n :| 0 <= n < |block| && block[n] == t;
        CombinationsTerms(u, k - 1, inner[n]);
        HeadTerm(u, inner[n]);
      } else {
        HeadNotInTail(u);
        CombinationsTerms(u[1..], k, t);
        TailTerm(u, t);
      }
    }
  }

  /** Putting the head of `u` in front keeps a term non-decreasing. */
  lemma {:induction false} HeadTerm(u: seq<int>, t': seq<int>)
    requires |u| > 0 && NonDecreasingIn(u, t')
    ensures NonDecreasingIn(u, [u[0]] + t')
  {
    var t := [u[0]] + t';
    FirstIndexUnique(u, u[0], 0);
    forall i, j | 0 <= i < j < |t|
      ensures FirstIndex(u, t[i]) <= FirstIndex(u, t[j])
    {
      if i > 0 {
        assert t[i] == t'[i - 1] && t[j] == t'[j - 1];
      } else {
        assert t[j] == t'[j - 1];
      }
    }
  }

  /** A term non-decreasing in the tail of distinct `u` is non-decreasing in `u`. */
  lemma {:induction false} TailTerm(u: seq<int>, t: seq<int>)
    requires |u| > 0 && NoDuplicates(u) && NonDecreasingIn(u[1..], t)
    ensures NonDecreasingIn(u, t)
  {
    forall i | 0 <= i < |t|
      ensures t[i] in u && FirstIndex(u, t[i]) == 1 + FirstIndex(u[1..], t[i])
    {
      FirstIndexOfTail(u, t[i]);
    }
  }

  lemma {:induction false} HeadNotInTail(u: seq<int>)
    requires |u| > 0 && NoDuplicates(u)
    ensures u[0] !in u[1..] && NoDuplicates(u[1..])
  {
    forall m | 0 <= m < |u[1..]|
      ensures u[1..][m] != u[0]
    {
      assert u[1..][m] == u[m + 1];
    }
    forall i, j | 0 <= i < j < |u[1..]|
      ensures u[1..][i] != u[1..][j]
    {
      assert u[1..][i] == u[i + 1] && u[1..][j] == u[j + 1];
    }
  }

  /** Dropping the first entry keeps a term non-decreasing. */
  lemma {:induction false} DropHeadTerm(u: seq<int>, t: seq<int>)
    requires |t| > 0 && NonDecreasingIn(u, t)
    ensures NonDecreasingIn(u, t[1..])
  {
    var t' := t[1..];
    forall i, j | 0 <= i < j < |t'|
      ensures FirstIndex(u, t'[i]) <= FirstIndex(u, t'[j])
    {
      assert t'[i] == t[i + 1] && t'[j] == t[j + 1];
    }
  }

  /** A non-decreasing term that does not start with the head of distinct `u` lies over `u[1..]`. */
  lemma {:induction false} TermPastHead(u: seq<int>, t: seq<int>)
    requires |u| > 0 && NoDuplicates(u) && NonDecreasingIn(u, t)
    requires |t| > 0 && t[0] != u[0]
    ensures NonDecreasingIn(u[1..], t)
  {
    FirstIndexUnique(u, u[0], 0);
    forall i | 0 <= i < |t|
      ensures t[i] in u[1..] && FirstIndex(u, t[i]) == 1 + FirstIndex(u[1..], t[i])
    {
      assert FirstIndex(u, t[i]) >= FirstIndex(u, t[0]) > 0;
      var f := FirstIndex(u, t[i]);
      assert u[1..][f - 1] == t[i];
      FirstIndexOfTail(u, t[i]);
    }
    forall i, j | 0 <= i < j < |t|
      ensures FirstIndex(u[1..], t[i]) <= FirstIndex(u[1..], t[j])
    {
      assert FirstIndex(u, t[i]) <= FirstIndex(u, t[j]);
    }
  }

  /** Every non-decreasing sequence of length k over distinct `u` is a term of `combinations_with_replacement(u, k)`. */
  lemma {:induction false} CombinationsComplete(u: seq<int>, k: nat, t: seq<int>)
    requires NoDuplicates(u) && |t| == k && NonDecreasingIn(u, t)
    ensures t in CombinationsWithReplacement(u, k)
    decreases k, |u|
  {
    if k == 0 {
      assert t == [];
    } else {
      assert t[0] in u;
      var inner := CombinationsWithReplacement(u, k - 1);
      var rest := CombinationsWithReplacement(u[1..], k);
      if t[0] == u[0] {
        assert t[1..] in inner by {
          DropHeadTerm(u, t);
          CombinationsComplete(u, k - 1, t[1..]);
        }
        PrependedInBlock(u[0], inner, t);
      } else {
        assert t in rest by {
          TermPastHead(u, t);
          HeadNotInTail(u);
          CombinationsComplete(u[1..], k, t);
        }
      }
      assert CombinationsWithReplacement(u, k) == PrependEach(u[0], inner) + rest;
    }
  }

  /** A term made of `x` and one of `ts` is among `PrependEach(x, ts)`. */
  lemma {:induction false} PrependedInBlock(x: int, ts: seq<seq<int>>, t: seq<int>)
    requires |t| > 0 && t[0] == x && t[1..] in ts
    ensures t in PrependEach(x, ts)
  {
    var n :| 0 <= n < |ts| && ts[n] == t[1..];
    assert PrependEach(x, ts)[n] == t;
  }

  /**
   * The terms of `combinations_with_replacement(u, k)` over distinct `u` are
   * exactly the length-k sequences over `u` that are non-decreasing by
   * position: every size-k multiset of `u`, each written once in order.
   */
  lemma {:induction false} CombinationsMembership(u: seq<int>, k: nat, t: seq<int>)
    requires NoDuplicates(u)
    ensures t in CombinationsWithReplacement(u, k) <==> |t| == k && NonDecreasingIn(u, t)
  {
    if t in CombinationsWithReplacement(u, k) {
      CombinationsTerms(u, k, t);
    }
    if |t| == k && NonDecreasingIn(u, t) {
      CombinationsComplete(u, k, t);
    }
  }

  /**
   * `combinations_with_replacement(u, k)` over distinct `u`:
   * `MultiChoose(|u|, k)` terms (see `MultiChooseIsBinomial`), pairwise
   * distinct, and they are exactly the length-k sequences non-decreasing in `u`.
   */
  lemma {:induction false} CombinationsSpec(u: seq<int>, k: nat)
    requires NoDuplicates(u)
    ensures |CombinationsWithReplacement(u, k)| == MultiChoose(|u|, k)
    ensures forall t :: t in CombinationsWithReplacement(u, k) <==> |t| == k && NonDecreasingIn(u, t)
    ensures NoDuplicates(CombinationsWithReplacement(u, k))
  {
    CombinationsCount(u, k);
    assert forall t :: t in CombinationsWithReplacement(u, k) <==> |t| == k && NonDecreasingIn(u, t) by {
      forall t
        ensures t in CombinationsWithReplacement(u, k) <==> |t| == k && NonDecreasingIn(u, t)
      {
        CombinationsMembership(u, k, t);
      }
    }
    CombinationsDistinct(u, k);
  }

  /** Over distinct indices no term is produced twice. */
  lemma {:induction false} CombinationsDistinct(u: seq<int>, k: nat)
    requires NoDuplicates(u)
    ensures NoDuplicates(CombinationsWithReplacement(u, k))
    decreases k, |u|
  {
    if k > 0 && |u| > 0 {
      var inner := CombinationsWithReplacement(u, k - 1);
      var block := PrependEach(u[0], inner);
      var rest := CombinationsWithReplacement(u[1..], k);
      CombinationsDistinct(u, k - 1);
      HeadNotInTail(u);
      CombinationsDistinct(u[1..], k);
      var all := block + rest;
      forall i, j | 0 <= i < j < |all|
        ensures all[i] != all[j]
      {
        if j < |block| {
          assert all[i] == [u[0]] + inner[i] && all[j] == [u[0]] + inner[j];
          assert all[i][1..] == inner[i] && all[j][1..] == inner[j];
        } else if i >= |block| {
          assert all[i] == rest[i - |block|] && all[j] == rest[j - |block|];
        } else {
          assert all[i][0] == u[0];
          assert all[j] == rest[j - |block|];
          CombinationsTerms(u[1..], k, all[j]);
          assert all[j][0] in u[1..];
          HeadNotInTail(u);
        }
      }
    }
  }

  /** Over distinct indices no tuple is produced twice. */
  lemma {:induction false} ProductDistinct(u: seq<int>, k: nat)
    requires NoDuplicates(u)
    ensures NoDuplicates(Product(u, k))
    decreases k
  {
    if k > 0 {
      var ts := Product(u, k - 1);
      ProductDistinct(u, k - 1);
      ProductHeadsDistinct(u, ts);
    }
  }

  lemma {:induction false} ProductHeadsDistinct(xs: seq<int>, ts: seq<seq<int>>)
    requires NoDuplicates(xs) && NoDuplicates(ts)
    ensures NoDuplicates(ProductHeads(xs, ts))
    decreases |xs|
  {
    if |xs| > 0 {
      var block := PrependEach(xs[0], ts);
      var rest := ProductHeads(xs[1..], ts);
      HeadNotInTail(xs);
      ProductHeadsDistinct(xs[1..], ts);
      var all := block + rest;
      forall i, j | 0 <= i < j < |all|
        ensures all[i] != all[j]
      {
        if j < |block| {
          assert all[i][1..] == ts[i] && all[j][1..] == ts[j];
        } else if i >= |block| {
          assert all[i] == rest[i - |block|] && all[j] == rest[j - |block|];
        } else {
          assert all[i][0] == xs[0];
          ProductHeadsMembership(xs[1..], ts, all[j]);
          assert all[j] in rest;
          HeadNotInTail(xs);
        }
      }
    }
  }
}
