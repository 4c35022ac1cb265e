// `labels_generator`: the computational-basis labels of a tensor product of
// subsystems with the given dimensions. Labels are built with subsystem 0
// as the first entry, each subsystem's states 1, 2, ... appended as copies
// of all labels so far with that entry set, and every label is reversed at
// the end, so that the last subsystem comes first. With `array=False` each
// label becomes the concatenation of the decimal strings of its entries.
//
// Python lists are values here: the in-place `labels += new_labels`, the
// `label.copy()` and the in-place `l.reverse()` of each label become
// reassignments of sequence variables (no label list is shared, since
// every new label is a fresh copy).
module PulseLabels {
  import opened Sequences

  /** The number of states `range(dim)` contributes: dim, or 1 (only state 0) when dim < 1. */
  function Levels(dim: int): nat
  {
    if dim < 1 then 1 else dim
  }

  /** `[0 for i in range(n)]`. */
  function Zeros(n: nat): (z: seq<int>)
    ensures |z| == n && forall i :: 0 <= i < n ==> z[i] == 0
  {
    seq(n, _ => 0)
  }

  predicate AllLength(ls: seq<seq<int>>, n: nat)
  {
    forall i :: 0 <= i < |ls| ==> |ls[i]| == n
  }

  /** `new_label = label.copy(); new_label[k] = state`. */
  function SetEntry(lab: seq<int>, k: nat, state: int): seq<int>
    requires k < |lab|
  {
    lab[k := state]
  }

  /** Copies of `labels` with entry k set to `state`, in order. */
  function Relabel(labels: seq<seq<int>>, n: nat, k: nat, state: int): (r: seq<seq<int>>)
    requires k < n && AllLength(labels, n)
    ensures |r| == |labels| && AllLength(r, n)
    ensures forall i :: 0 <= i < |r| ==> r[i] == SetEntry(labels[i], k, state)
  {
    seq(|labels|, i requires 0 <= i < |labels| => SetEntry(labels[i], k, state))
  }

  /** `new_labels` of subsystem k once the states 1, ..., upTo - 1 have been handled. */
  function NewLabels(labels: seq<seq<int>>, n: nat, k: nat, upTo: int): (r: seq<seq<int>>)
    requires k < n && AllLength(labels, n)
    ensures AllLength(r, n)
    decreases upTo
  {
    if upTo <= 1 then [] else NewLabels(labels, n, k, upTo - 1) + Relabel(labels, n, k, upTo - 1)
  }

  /** `labels` once the subsystems 0, ..., k - 1 have been handled, before the reversal. */
  function LabelsUpTo(dims: seq<int>, k: nat): (ls: seq<seq<int>>)
    requires k <= |dims|
    ensures AllLength(ls, |dims|)
  {
    if k == 0 then [Zeros(|dims|)]
    else
      var prev := LabelsUpTo(dims, k - 1);
      prev + NewLabels(prev, |dims|, k - 1, dims[k - 1])
  }

  /** `l.reverse()`. */
  function Reverse(l: seq<int>): (r: seq<int>)
    ensures |r| == |l| && forall j :: 0 <= j < |l| ==> r[j] == l[|l| - 1 - j]
  {
    seq(|l|, j requires 0 <= j < |l| => l[|l| - 1 - j])
  }

  /** The labels returned with `array=True`. */
  function GeneratedLabels(dims: seq<int>): (ls: seq<seq<int>>)
    ensures AllLength(ls, |dims|)
  {
    var l := LabelsUpTo(dims, |dims|);
    seq(|l|, i requires 0 <= i < |l| => Reverse(l[i]))
  }

  function DigitChar(d: int): char
    requires 0 <= d < 10
  {
    ('0' as int + d) as char
  }

  /** The decimal digits of a natural number, as `str` writes them. */
  function DecimalString(x: nat): string
    decreases x
  {
    if x < 10 then [DigitChar(x)] else DecimalString(x / 10) + [DigitChar(x % 10)]
  }

  /** Python's `str` of an integer. */
  function Str(x: int): string
  {
    if x < 0 then "-" + DecimalString(-x) else DecimalString(x)
  }

  /** `"".join([str(x) for x in lab])`. */
  function Join(lab: seq<int>): string
    decreases |lab|
  {
    if |lab| == 0 then "" else Str(lab[0]) + Join(lab[1..])
  }

  function LabelStrings(ls: seq<seq<int>>): (r: seq<string>)
    ensures |r| == |ls|
  {
    seq(|ls|, i requires 0 <= i < |ls| => Join(ls[i]))
  }

  /** What `labels_generator` returns: lists of integers, or strings. */
  datatype Labels = Arrays(arrays: seq<seq<int>>) | Strings(strings: seq<string>)

  /** `for label in labels: new_label = label.copy(); new_label[k] = state; new_labels.append(new_label)`. */
  method AppendCopies(newLabels: seq<seq<int>>, labels: seq<seq<int>>, n: nat, k: nat, state: int)
    returns (extended: seq<seq<int>>)
    requires k < n && AllLength(labels, n)
    ensures extended == newLabels + Relabel(labels, n, k, state)
  {
    extended := newLabels;
    var i := 0;
    while i < |labels|
      invariant 0 <= i <= |labels|
      invariant extended == newLabels + Relabel(labels[..i], n, k, state)
    {
      var newLabel := SetEntry(labels[i], k, state);
      assert Relabel(labels[..i + 1], n, k, state) == Relabel(labels[..i], n, k, state) + [newLabel];
      extended := extended + [newLabel];
      i := i + 1;
    }
    assert labels[..|labels|] == labels;
  }

  /** `for l in labels: l.reverse()`. */
  method ReverseEach(labels: seq<seq<int>>) returns (reversed: seq<seq<int>>)
    ensures |reversed| == |labels| && forall i :: 0 <= i < |labels| ==> reversed[i] == Reverse(labels[i])
  {
    reversed := labels;
    var idx := 0;
    while idx < |reversed|
      invariant 0 <= idx <= |reversed| == |labels|
      invariant forall i :: 0 <= i < idx ==> reversed[i] == Reverse(labels[i])
      invariant forall i :: idx <= i < |reversed| ==> reversed[i] == labels[i]
    {
      reversed := reversed[idx := Reverse(reversed[idx])];
      idx := idx + 1;
    }
  }

  /**
   * `labels_generator(subsystem_dims, array)` (`asArray` is `array`) with
   * its loops: the enumeration over subsystems and states (the first subsystem by fresh
   * zero labels, the others by copying every label so far), the reversal
   * of every label, and the conversion to strings.
   */
  method LabelsGenerator(subsystemDims: seq<int>, asArray: bool) returns (r: Labels)
    ensures r == if asArray then Arrays(GeneratedLabels(subsystemDims))
                 else Strings(LabelStrings(GeneratedLabels(subsystemDims)))
  {
    var n := |subsystemDims|;
    var labels := [Zeros(n)];
    var subsysInd := 0;
    while subsysInd < n
      invariant 0 <= subsysInd <= n
      invariant labels == LabelsUpTo(subsystemDims, subsysInd)
    {
      var dim := subsystemDims[subsysInd];
      var newLabels: seq<seq<int>> := [];
      var state := 1;
      while state < dim
        invariant 1 <= state <= Levels(dim)
        invariant newLabels == NewLabels(labels, n, subsysInd, state)
      {
        if subsysInd == 0 {
          var newLabel := SetEntry(Zeros(n), subsysInd, state);
          newLabels := newLabels + [newLabel];
        } else {
          newLabels := AppendCopies(newLabels, labels, n, subsysInd, state);
        }
        state := state + 1;
      }
      labels := labels + newLabels;
      subsysInd := subsysInd + 1;
    }
    labels := ReverseEach(labels);
    assert labels == GeneratedLabels(subsystemDims);
    if !asArray {
      r := Strings(LabelStrings(labels));
    } else {
      r := Arrays(labels);
    }
  }

  /**
   * What the labels after subsystems 0, ..., k - 1 look like: one entry per
   * subsystem, entry j below the dimension of subsystem j (only 0 for a
   * dimension below 1) for the handled subsystems, and 0 for the others.
   */
  predicate InRange(dims: seq<int>, k: nat, t: seq<int>)
  {
    && |t| == |dims|
    && (forall j :: 0 <= j < k && j < |t| ==> 0 <= t[j] < Levels(dims[j]))
    && (forall j :: k <= j < |t| ==> t[j] == 0)
  }

  /** `t` is a copy of one of `labels` with entry k set to a state in 1, ..., upTo - 1. */
  predicate CopyOf(labels: seq<seq<int>>, k: nat, upTo: int, t: seq<int>)
    requires forall i :: 0 <= i < |labels| ==> k < |labels[i]|
  {
    exists s, i :: 1 <= s < upTo && 0 <= i < |labels| && t == SetEntry(labels[i], k, s)
  }

  /** `new_labels` holds exactly the copies of `labels` with entry k set to a state in 1, ..., upTo - 1. */
  lemma {:induction false} NewLabelsMembership(labels: seq<seq<int>>, n: nat, k: nat, upTo: int, t: seq<int>)
    requires k < n && AllLength(labels, n)
    ensures t in NewLabels(labels, n, k, upTo) <==> CopyOf(labels, k, upTo, t)
  {
    if t in NewLabels(labels, n, k, upTo) {
      NewLabelsSound(labels, n, k, upTo, t);
    }
    if CopyOf(labels, k, upTo, t) {
      var s, i :| 1 <= s < upTo && 0 <= i < |labels| && t == SetEntry(labels[i], k, s);
      CopyInNewLabels(labels, n, k, upTo, s, i);
    }
  }

  /** Every entry of `new_labels` is such a copy. */
  lemma {:induction false} NewLabelsSound(labels: seq<seq<int>>, n: nat, k: nat, upTo: int, t: seq<int>)
    requires k < n && AllLength(labels, n) && t in NewLabels(labels, n, k, upTo)
    ensures CopyOf(labels, k, upTo, t)
    decreases upTo
  {
    var prefix := NewLabels(labels, n, k, upTo - 1);
    var rl := Relabel(labels, n, k, upTo - 1);
    assert NewLabels(labels, n, k, upTo) == prefix + rl;
    if t in prefix {
      NewLabelsSound(labels, n, k, upTo - 1, t);
      var s, i :| 1 <= s < upTo - 1 && 0 <= i < |labels| && t == SetEntry(labels[i], k, s);
      assert 1 <= s < upTo;
    } else {
      var i :| 0 <= i < |rl| && rl[i] == t;
      assert t == SetEntry(labels[i], k, upTo - 1);
    }
  }

  /** Every such copy is an entry of `new_labels`. */
  lemma {:induction false} CopyInNewLabels(labels: seq<seq<int>>, n: nat, k: nat, upTo: int, s: int, i: int)
    requires k < n && AllLength(labels, n) && 1 <= s < upTo && 0 <= i < |labels|
    ensures SetEntry(labels[i], k, s) in NewLabels(labels, n, k, upTo)
    decreases upTo
  {
    var prefix := NewLabels(labels, n, k, upTo - 1);
    var rl := Relabel(labels, n, k, upTo - 1);
    assert NewLabels(labels, n, k, upTo) == prefix + rl;
    if s < upTo - 1 {
      CopyInNewLabels(labels, n, k, upTo - 1, s, i);
    } else {
      assert rl[i] == SetEntry(labels[i], k, s);
    }
  }

  /** Every label after subsystems 0, ..., k - 1 is `InRange(dims, k, _)`. */
  lemma {:induction false} LabelsInRange(dims: seq<int>, k: nat, t: seq<int>)
    requires k <= |dims| && t in LabelsUpTo(dims, k)
    ensures InRange(dims, k, t)
  {
    if k > 0 {
      var prev := LabelsUpTo(dims, k - 1);
      if t in prev {
        LabelsInRange(dims, k - 1, t);
        WidenInRange(dims, k, t);
      } else {
        assert CopyOf(prev, k - 1, dims[k - 1], t) by {
          LabelsGrow(dims, k, t);
          NewLabelsMembership(prev, |dims|, k - 1, dims[k - 1], t);
        }
        var s, i :| 1 <= s < dims[k - 1] && 0 <= i < |prev| && t == SetEntry(prev[i], k - 1, s);
        assert InRange(dims, k - 1, prev[i]) by {
          LabelsInRange(dims, k - 1, prev[i]);
        }
        SetInRange(dims, k, prev[i], s);
      }
    }
  }

  /** A label in range for k - 1 subsystems is in range for k (its entry k - 1 is 0). */
  lemma {:induction false} WidenInRange(dims: seq<int>, k: nat, t: seq<int>)
    requires 0 < k <= |dims| && InRange(dims, k - 1, t)
    ensures InRange(dims, k, t)
  {
  }

  /** Setting entry k - 1 to a state of subsystem k - 1 gives a label in range for k subsystems. */
  lemma {:induction false} SetInRange(dims: seq<int>, k: nat, l: seq<int>, s: int)
    requires 0 < k <= |dims| && InRange(dims, k - 1, l) && 1 <= s < dims[k - 1]
    ensures InRange(dims, k, SetEntry(l, k - 1, s))
  {
  }

  /** Every `InRange(dims, k, _)` sequence is a label after subsystems 0, ..., k - 1. */
  lemma {:induction false} LabelsComplete(dims: seq<int>, k: nat, t: seq<int>)
    requires k <= |dims| && InRange(dims, k, t)
    ensures t in LabelsUpTo(dims, k)
  {
    if k == 0 {
      assert t == Zeros(|dims|);
    } else {
      var prev := LabelsUpTo(dims, k - 1);
      if t[k - 1] == 0 {
        assert t in prev by {
          assert InRange(dims, k - 1, t);
          LabelsComplete(dims, k - 1, t);
        }
      } else {
        var l := t[k - 1 := 0];
        assert l in prev by {
          ClearedInRange(dims, k, t);
          LabelsComplete(dims, k - 1, l);
        }
        assert t in NewLabels(prev, |dims|, k - 1, dims[k - 1]) by {
          CopyIsNew(prev, |dims|, k - 1, dims[k - 1], l, t[k - 1], t);
        }
      }
      LabelsGrow(dims, k, t);
    }
  }

  /** One more subsystem keeps the labels so far and appends its `new_labels`. */
  lemma {:induction false} LabelsGrow(dims: seq<int>, k: nat, t: seq<int>)
    requires 0 < k <= |dims|
    ensures var prev := LabelsUpTo(dims, k - 1);
      t in LabelsUpTo(dims, k) <==> t in prev || t in NewLabels(prev, |dims|, k - 1, dims[k - 1])
  {
  }

  /** Clearing entry k - 1 of a label in range for k subsystems gives one in range for k - 1. */
  lemma {:induction false} ClearedInRange(dims: seq<int>, k: nat, t: seq<int>)
    requires 0 < k <= |dims| && InRange(dims, k, t)
    ensures InRange(dims, k - 1, t[k - 1 := 0])
  {
  }

  /** A copy of a label so far with entry k set to a state of subsystem k is among `new_labels`. */
  lemma {:induction false} CopyIsNew(labels: seq<seq<int>>, n: nat, k: nat, dim: int, l: seq<int>, s: int, t: seq<int>)
    requires k < n && AllLength(labels, n) && l in labels && 1 <= s < dim
    requires |t| == n && t == l[k := s]
    ensures t in NewLabels(labels, n, k, dim)
  {
    var i :| 0 <= i < |labels| && labels[i] == l;
    assert t == SetEntry(labels[i], k, s);
    CopyInNewLabels(labels, n, k, dim, s, i);
  }

  /** The labels after subsystems 0, ..., k - 1 are exactly the sequences `InRange(dims, k, _)`. */
  lemma {:induction false} LabelsMembership(dims: seq<int>, k: nat, t: seq<int>)
    requires k <= |dims|
    ensures t in LabelsUpTo(dims, k) <==> InRange(dims, k, t)
  {
    if t in LabelsUpTo(dims, k) {
      LabelsInRange(dims, k, t);
    }
    if InRange(dims, k, t) {
      LabelsComplete(dims, k, t);
    }
  }

  /** The product of `Levels` over the first k dimensions: the product of the dimensions when all are positive. */
  function DimProduct(dims: seq<int>, k: nat): nat
    requires k <= |dims|
  {
    if k == 0 then 1 else DimProduct(dims, k - 1) * Levels(dims[k - 1])
  }

  lemma {:induction false} NewLabelsCount(labels: seq<seq<int>>, n: nat, k: nat, upTo: int)
    requires k < n && AllLength(labels, n)
    ensures |NewLabels(labels, n, k, upTo)| == (Levels(upTo) - 1) * |labels|
    decreases upTo
  {
    if upTo > 1 {
      NewLabelsCount(labels, n, k, upTo - 1);
      assert (upTo - 1) * |labels| == (upTo - 2) * |labels| + |labels|;
    }
  }

  /** There are `DimProduct(dims, k)` labels after subsystems 0, ..., k - 1. */
  lemma {:induction false} LabelsCount(dims: seq<int>, k: nat)
    requires k <= |dims|
    ensures |LabelsUpTo(dims, k)| == DimProduct(dims, k)
  {
    if k > 0 {
      var prev := LabelsUpTo(dims, k - 1);
      LabelsCount(dims, k - 1);
      NewLabelsCount(prev, |dims|, k - 1, dims[k - 1]);
      assert |prev| * Levels(dims[k - 1]) == |prev| + (Levels(dims[k - 1]) - 1) * |prev|;
    }
  }

  /** Copies of distinct labels that are 0 at entry k, with entry k set to one state, are distinct. */
  lemma {:induction false} RelabelDistinct(labels: seq<seq<int>>, n: nat, k: nat, s: int)
    requires k < n && AllLength(labels, n) && NoDuplicates(labels)
    requires forall i :: 0 <= i < |labels| ==> labels[i][k] == 0
    ensures NoDuplicates(Relabel(labels, n, k, s))
  {
    var r := Relabel(labels, n, k, s);
    forall i, j | 0 <= i < j < |r|
      ensures r[i] != r[j]
    {
      assert SetEntry(r[i], k, 0) == labels[i];
      assert SetEntry(r[j], k, 0) == labels[j];
    }
  }

  /** `new_labels` is duplicate-free, and entry k of each of its labels is a state in 1, ..., upTo - 1. */
  lemma {:induction false} NewLabelsDistinct(labels: seq<seq<int>>, n: nat, k: nat, upTo: int)
    requires k < n && AllLength(labels, n) && NoDuplicates(labels)
    requires forall i :: 0 <= i < |labels| ==> labels[i][k] == 0
    ensures var r := NewLabels(labels, n, k, upTo);
      NoDuplicates(r) && forall i :: 0 <= i < |r| ==> 1 <= r[i][k] < upTo
    decreases upTo
  {
    if upTo > 1 {
      var a := NewLabels(labels, n, k, upTo - 1);
      var b := Relabel(labels, n, k, upTo - 1);
      NewLabelsDistinct(labels, n, k, upTo - 1);
      RelabelDistinct(labels, n, k, upTo - 1);
      forall x | x in a
        ensures x !in b
      {
        var i :| 0 <= i < |a| && a[i] == x;
        assert x[k] < upTo - 1;
        assert forall j :: 0 <= j < |b| ==> b[j][k] == upTo - 1;
      }
      DisjointAppend(a, b);
    }
  }

  /** No label is produced twice. */
  lemma {:induction false} LabelsDistinct(dims: seq<int>, k: nat)
    requires k <= |dims|
    ensures NoDuplicates(LabelsUpTo(dims, k))
  {
    if k > 0 {
      var prev := LabelsUpTo(dims, k - 1);
      var added := NewLabels(prev, |dims|, k - 1, dims[k - 1]);
      LabelsDistinct(dims, k - 1);
      forall i | 0 <= i < |prev|
        ensures prev[i][k - 1] == 0
      {
        LabelsInRange(dims, k - 1, prev[i]);
      }
      NewLabelsDistinct(prev, |dims|, k - 1, dims[k - 1]);
      forall x | x in prev
        ensures x !in added
      {
        var i :| 0 <= i < |prev| && prev[i] == x;
        assert x[k - 1] == 0;
        assert forall j :: 0 <= j < |added| ==> added[j][k - 1] >= 1;
      }
      DisjointAppend(prev, added);
    }
  }

  /** The all-zero label comes first. */
  lemma {:induction false} LabelsStartWithZeros(dims: seq<int>, k: nat)
    requires k <= |dims|
    ensures |LabelsUpTo(dims, k)| >= 1 && LabelsUpTo(dims, k)[0] == Zeros(|dims|)
  {
    if k > 0 {
      LabelsStartWithZeros(dims, k - 1);
    }
  }

  lemma {:induction false} ReverseReverse(l: seq<int>)
    ensures Reverse(Reverse(l)) == l
  {
  }

  /** `labels_generator` returns `DimProduct` labels, the all-zero label first. */
  lemma {:induction false} GeneratedCount(dims: seq<int>)
    ensures |GeneratedLabels(dims)| == DimProduct(dims, |dims|)
    ensures |GeneratedLabels(dims)| >= 1 && GeneratedLabels(dims)[0] == Zeros(|dims|)
  {
    LabelsCount(dims, |dims|);
    LabelsStartWithZeros(dims, |dims|);
    assert Reverse(Zeros(|dims|)) == Zeros(|dims|);
  }

  /** Entry j of a returned label is a state of subsystem `len(dims) - 1 - j`. */
  predicate ReversedInRange(dims: seq<int>, t: seq<int>)
  {
    |t| == |dims| && forall j :: 0 <= j < |t| ==> 0 <= t[j] < Levels(dims[|dims| - 1 - j])
  }

  lemma {:induction false} ReverseInRange(dims: seq<int>, l: seq<int>)
    ensures InRange(dims, |dims|, l) <==> ReversedInRange(dims, Reverse(l))
  {
    var n := |dims|;
    if ReversedInRange(dims, Reverse(l)) && |l| == n {
      forall j | 0 <= j < n
        ensures 0 <= l[j] < Levels(dims[j])
      {
        assert Reverse(l)[n - 1 - j] == l[j];
      }
    }
  }

  /** Every returned label lists, last subsystem first, one state per subsystem. */
  lemma {:induction false} GeneratedInRange(dims: seq<int>, t: seq<int>)
    requires t in GeneratedLabels(dims)
    ensures ReversedInRange(dims, t)
  {
    var l := LabelsUpTo(dims, |dims|);
    var g := GeneratedLabels(dims);
    var i :| 0 <= i < |g| && g[i] == t;
    assert t == Reverse(l[i]);
    LabelsInRange(dims, |dims|, l[i]);
    ReverseInRange(dims, l[i]);
  }

  /** Every such sequence is returned. */
  lemma {:induction false} GeneratedComplete(dims: seq<int>, t: seq<int>)
    requires ReversedInRange(dims, t)
    ensures t in GeneratedLabels(dims)
  {
    var l := LabelsUpTo(dims, |dims|);
    var g := GeneratedLabels(dims);
    ReverseReverse(t);
    ReverseInRange(dims, Reverse(t));
    LabelsComplete(dims, |dims|, Reverse(t));
    var i :| 0 <= i < |l| && l[i] == Reverse(t);
    assert g[i] == Reverse(l[i]);
  }

  /**
   * The returned labels are exactly the sequences with one entry per
   * subsystem, the last subsystem first: entry j is a state of subsystem
   * `len(dims) - 1 - j`.
   */
  lemma {:induction false} GeneratedMembership(dims: seq<int>, t: seq<int>)
    ensures t in GeneratedLabels(dims) <==> ReversedInRange(dims, t)
  {
    if t in GeneratedLabels(dims) {
      GeneratedInRange(dims, t);
    }
    if ReversedInRange(dims, t) {
      GeneratedComplete(dims, t);
    }
  }

  /** The returned labels are pairwise distinct. */
  lemma {:induction false} GeneratedDistinct(dims: seq<int>)
    ensures NoDuplicates(GeneratedLabels(dims))
  {
    var l := LabelsUpTo(dims, |dims|);
    var g := GeneratedLabels(dims);
    LabelsDistinct(dims, |dims|);
    forall i, j | 0 <= i < j < |g|
      ensures g[i] != g[j]
    {
      ReverseReverse(l[i]);
      ReverseReverse(l[j]);
    }
  }

  /** `"".join` of single digits is one character per digit. */
  lemma {:induction false} JoinSingleDigits(lab: seq<int>)
    requires forall j :: 0 <= j < |lab| ==> 0 <= lab[j] < 10
    ensures |Join(lab)| == |lab|
    ensures forall j :: 0 <= j < |lab| ==> Join(lab)[j] == DigitChar(lab[j])
    decreases |lab|
  {
    if |lab| > 0 {
      JoinSingleDigits(lab[1..]);
    }
  }

  /**
   * With every dimension at most 10 the string labels are distinct and
   * character j of a string label is the digit of entry j of its label.
   */
  lemma {:induction false} StringLabelsDistinct(dims: seq<int>)
    requires forall j :: 0 <= j < |dims| ==> dims[j] <= 10
    ensures var g := GeneratedLabels(dims);
      var s := LabelStrings(g);
      && NoDuplicates(s)
      && forall i :: 0 <= i < |s| ==>
           && |s[i]| == |dims|
           && forall j :: 0 <= j < |dims| ==> '0' <= s[i][j] <= '9' && s[i][j] as int - '0' as int == g[i][j]
  {
    var g := GeneratedLabels(dims);
    var s := LabelStrings(g);
    forall i | 0 <= i < |g|
      ensures |s[i]| == |dims|
      ensures forall j :: 0 <= j < |dims| ==> 0 <= g[i][j] < 10 && s[i][j] == DigitChar(g[i][j])
    {
      GeneratedMembership(dims, g[i]);
      JoinSingleDigits(g[i]);
    }
    GeneratedDistinct(dims);
    forall i, j | 0 <= i < j < |s|
      ensures s[i] != s[j]
    {
      assert g[i] != g[j];
      var m :| 0 <= m < |dims| && g[i][m] != g[j][m];
      assert s[i][m] != s[j][m];
    }
  }

  /**
   * Beyond 10 the string labels can coincide: with two subsystems of
   * dimension at least 12 the labels [1, 11] and [11, 1] both become "111".
   */
  lemma {:induction false} StringLabelsCollide(dims: seq<int>)
    requires |dims| == 2 && dims[0] >= 12 && dims[1] >= 12
    ensures !NoDuplicates(LabelStrings(GeneratedLabels(dims)))
  {
    var g := GeneratedLabels(dims);
    var t1 := [1, 11];
    var t2 := [11, 1];
    assert t1 in g by {
      GeneratedMembership(dims, t1);
    }
    assert t2 in g by {
      GeneratedMembership(dims, t2);
    }
    var i :| 0 <= i < |g| && g[i] == t1;
    var j :| 0 <= j < |g| && g[j] == t2;
    var strs := LabelStrings(g);
    assert i != j by {
      assert g[i][0] != g[j][0];
    }
    assert strs[i] == strs[j] by {
      assert strs[i] == Join(t1) && strs[j] == Join(t2);
      JoinOneEleven();
    }
  }

  lemma {:induction false} JoinOneEleven()
    ensures Join([1, 11]) == "111" && Join([11, 1]) == "111"
  {
    assert DecimalString(11) == "11";
    assert [1, 11][1..] == [11] && [11, 1][1..] == [1];
  }
}
