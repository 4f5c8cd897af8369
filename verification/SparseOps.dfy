/** Sparse distances by a two-pointer walk, and the `sum` aggregate with its parallel combine step. */
module SparseOps {
  import opened Options
  import opened Sparsevec

  /** A dense loop over two vectors, element by element from the first. */
  function DenseFold<S>(x: seq<real>, y: seq<real>, n: nat, zero: S, visit: (S, real, real) -> S): S
    requires n <= |x| && n <= |y|
  {
    if n == 0 then zero else visit(DenseFold(x, y, n - 1, zero, visit), x[n - 1], y[n - 1])
  }

  /** Visiting two zeros changes nothing. Nothing else is asked of `visit`. */
  ghost predicate Neutral<S(!new)>(visit: (S, real, real) -> S) {
    forall s :: visit(s, 0.0, 0.0) == s
  }

  ghost predicate BothZero(x: seq<real>, y: seq<real>, lo: nat, hi: nat)
    requires hi <= |x| && hi <= |y|
  {
    forall i :: lo <= i < hi ==> x[i] == 0.0 && y[i] == 0.0
  }

  lemma {:induction false} SkipZeros<S(!new)>(x: seq<real>, y: seq<real>, lo: nat, hi: nat, zero: S,
      visit: (S, real, real) -> S)
    requires Neutral(visit) && lo <= hi <= |x| && hi <= |y| && BothZero(x, y, lo, hi)
    ensures DenseFold(x, y, hi, zero, visit) == DenseFold(x, y, lo, zero, visit)
  {
    if lo < hi {
      SkipZeros(x, y, lo, hi - 1, zero, visit);
      assert x[hi - 1] == 0.0 && y[hi - 1] == 0.0;
    }
  }

  /** The elements below `at` are exactly the first `n` stored ones. */
  ghost predicate Passed(v: Sparsevec, n: nat, at: nat)
    requires Valid(v)
  {
    && n <= |v.indices| && at <= v.dim
    && (forall k :: 0 <= k < n ==> v.indices[k] < at)
    && (forall k :: n <= k < |v.indices| ==> at <= v.indices[k])
  }

  /** The next stored index, or the end. */
  function NextAt(v: Sparsevec, n: nat): int
    requires n <= |v.indices|
  {
    if n < |v.indices| then v.indices[n] else v.dim
  }

  lemma GapIsZero(v: Sparsevec, n: nat, at: nat, to: nat)
    requires Valid(v) && Passed(v, n, at) && at <= to <= NextAt(v, n)
    ensures forall i :: at <= i < to ==> Dense(v)[i] == 0.0
    ensures Passed(v, n, to)
  {
    forall i | at <= i < to ensures Dense(v)[i] == 0.0 {
      AbsentElement(v, |v.indices|, i);
    }
  }

  lemma StepPast(v: Sparsevec, n: nat, at: nat)
    requires Valid(v) && Passed(v, n, at) && at < v.dim
    ensures n < |v.indices| && v.indices[n] == at ==> Dense(v)[at] == v.values[n] && Passed(v, n + 1, at + 1)
    ensures at < NextAt(v, n) ==> Dense(v)[at] == 0.0 && Passed(v, n, at + 1)
  {
    if n < |v.indices| && v.indices[n] == at { StoredElement(v, |v.indices|, n); }
    if at < NextAt(v, n) { GapIsZero(v, n, at, at + 1); }
  }

  /** What the walk has done once it passed `i` and `j` stored elements. */
  ghost predicate Walked<S>(a: Sparsevec, b: Sparsevec, i: nat, j: nat, at: nat, acc: S, zero: S,
      visit: (S, real, real) -> S)
    requires Valid(a) && Valid(b) && a.dim == b.dim
  {
    Passed(a, i, at) && Passed(b, j, at) && acc == DenseFold(Dense(a), Dense(b), at, zero, visit)
  }

  /** Skips the common gap and visits the next stored index `to`. */
  lemma WalkStep<S(!new)>(a: Sparsevec, b: Sparsevec, i: nat, j: nat, at: nat, acc: S, zero: S,
      visit: (S, real, real) -> S, to: nat)
    requires Valid(a) && Valid(b) && a.dim == b.dim && Neutral(visit) && Walked(a, b, i, j, at, acc, zero, visit)
    requires to < a.dim && to <= NextAt(a, i) && to <= NextAt(b, j) && (to == NextAt(a, i) || to == NextAt(b, j))
    ensures Walked(a, b, if NextAt(a, i) == to then i + 1 else i, if NextAt(b, j) == to then j + 1 else j, to + 1,
                   visit(acc, if NextAt(a, i) == to then a.values[i] else 0.0,
                         if NextAt(b, j) == to then b.values[j] else 0.0),
                   zero, visit)
  {
    assert at <= to;
    GapIsZero(a, i, at, to);
    GapIsZero(b, j, at, to);
    SkipZeros(Dense(a), Dense(b), at, to, zero, visit);
    StepPast(a, i, to);
    StepPast(b, j, to);
  }

  lemma StepBoth<S(!new)>(a: Sparsevec, b: Sparsevec, i: nat, j: nat, at: nat, acc: S, zero: S,
      visit: (S, real, real) -> S) returns (next: nat)
    requires Valid(a) && Valid(b) && a.dim == b.dim && Neutral(visit) && Walked(a, b, i, j, at, acc, zero, visit)
    requires i < |a.indices| && j < |b.indices| && a.indices[i] == b.indices[j]
    ensures i < |a.values| && j < |b.values|
    ensures Walked(a, b, i + 1, j + 1, next, visit(acc, a.values[i], b.values[j]), zero, visit)
  {
    next := a.indices[i] + 1;
    WalkStep(a, b, i, j, at, acc, zero, visit, a.indices[i]);
  }

  lemma StepLeft<S(!new)>(a: Sparsevec, b: Sparsevec, i: nat, j: nat, at: nat, acc: S, zero: S,
      visit: (S, real, real) -> S) returns (next: nat)
    requires Valid(a) && Valid(b) && a.dim == b.dim && Neutral(visit) && Walked(a, b, i, j, at, acc, zero, visit)
    requires i < |a.indices| && (j < |b.indices| ==> a.indices[i] < b.indices[j])
    ensures i < |a.values|
    ensures Walked(a, b, i + 1, j, next, visit(acc, a.values[i], 0.0), zero, visit)
  {
    next := a.indices[i] + 1;
    WalkStep(a, b, i, j, at, acc, zero, visit, a.indices[i]);
  }

  lemma StepRight<S(!new)>(a: Sparsevec, b: Sparsevec, i: nat, j: nat, at: nat, acc: S, zero: S,
      visit: (S, real, real) -> S) returns (next: nat)
    requires Valid(a) && Valid(b) && a.dim == b.dim && Neutral(visit) && Walked(a, b, i, j, at, acc, zero, visit)
    requires j < |b.indices| && (i < |a.indices| ==> b.indices[j] < a.indices[i])
    ensures j < |b.values|
    ensures Walked(a, b, i, j + 1, next, visit(acc, 0.0, b.values[j]), zero, visit)
  {
    next := b.indices[j] + 1;
    WalkStep(a, b, i, j, at, acc, zero, visit, b.indices[j]);
  }

  lemma WalkEnd<S(!new)>(a: Sparsevec, b: Sparsevec, at: nat, acc: S, zero: S, visit: (S, real, real) -> S)
    requires Valid(a) && Valid(b) && a.dim == b.dim && Neutral(visit)
    requires Walked(a, b, |a.indices|, |b.indices|, at, acc, zero, visit)
    ensures acc == DenseFold(Dense(a), Dense(b), a.dim, zero, visit)
  {
    GapIsZero(a, |a.indices|, at, a.dim);
    GapIsZero(b, |b.indices|, at, a.dim);
    SkipZeros(Dense(a), Dense(b), at, a.dim, zero, visit);
  }

  /** `sparse_walk`: visits the union of the stored indices in order. It gives exactly what the dense loop
      gives, in the same order of operations. */
  method SparseWalk<S(!new)>(a: Sparsevec, b: Sparsevec, zero: S, visit: (S, real, real) -> S) returns (acc: S)
    requires Valid(a) && Valid(b) && a.dim == b.dim && Neutral(visit)
    ensures acc == DenseFold(Dense(a), Dense(b), a.dim, zero, visit)
  {
    var i, j := 0, 0;
    acc := zero;
    ghost var at: nat := 0;
    assert Walked(a, b, 0, 0, 0, zero, zero, visit);
    hide *;
    while i < |a.indices| && j < |b.indices|
      invariant i <= |a.indices| && j <= |b.indices| && Walked(a, b, i, j, at, acc, zero, visit)
      decreases |a.indices| - i + |b.indices| - j
    {
      if a.indices[i] == b.indices[j] {
        at := StepBoth(a, b, i, j, at, acc, zero, visit);
        acc := visit(acc, a.values[i], b.values[j]);
        i, j := i + 1, j + 1;
      } else if a.indices[i] < b.indices[j] {
        at := StepLeft(a, b, i, j, at, acc, zero, visit);
        acc := visit(acc, a.values[i], 0.0);
        i := i + 1;
      } else {
        at := StepRight(a, b, i, j, at, acc, zero, visit);
        acc := visit(acc, 0.0, b.values[j]);
        j := j + 1;
      }
    }
    while i < |a.indices|
      invariant i <= |a.indices| && j <= |b.indices| && (i < |a.indices| ==> j == |b.indices|)
      invariant Walked(a, b, i, j, at, acc, zero, visit)
    {
      at := StepLeft(a, b, i, j, at, acc, zero, visit);
      acc := visit(acc, a.values[i], 0.0);
      i := i + 1;
    }
    while j < |b.indices|
      invariant i == |a.indices| && j <= |b.indices| && Walked(a, b, i, j, at, acc, zero, visit)
    {
      at := StepRight(a, b, i, j, at, acc, zero, visit);
      acc := visit(acc, 0.0, b.values[j]);
      j := j + 1;
    }
    WalkEnd(a, b, at, acc, zero, visit);
  }

  // ---------------------------------------------------------------- distances

  function Abs(x: real): real { if x < 0.0 then -x else x }

  function Product(s: real, x: real, y: real): real { s + x * y }

  function SquaredGap(s: real, x: real, y: real): real { s + (x - y) * (x - y) }

  function Gap(s: real, x: real, y: real): real { s + Abs(x - y) }

  lemma AllNeutral()
    ensures Neutral(Product) && Neutral(SquaredGap) && Neutral(Gap)
  {
  }

  function SumOf(s: seq<real>): real {
    if s == [] then 0.0 else SumOf(s[..|s| - 1]) + s[|s| - 1]
  }

  /** The products, coordinate by coordinate; and the differences, each the larger less the smaller element. */
  function Products(x: seq<real>, y: seq<real>): (r: seq<real>)
    requires |x| == |y|
    ensures |r| == |x| && forall i :: 0 <= i < |x| ==> r[i] == x[i] * y[i]
  {
    seq(|x|, i requires 0 <= i < |x| => x[i] * y[i])
  }

  function Differences(x: seq<real>, y: seq<real>): (r: seq<real>)
    requires |x| == |y|
    ensures |r| == |x| && forall i :: 0 <= i < |x| ==> r[i] == if x[i] < y[i] then y[i] - x[i] else x[i] - y[i]
  {
    seq(|x|, i requires 0 <= i < |x| => if x[i] < y[i] then y[i] - x[i] else x[i] - y[i])
  }

  lemma {:induction false} SumPrefix(terms: seq<real>, n: nat)
    requires n < |terms|
    ensures SumOf(terms[..n + 1]) == SumOf(terms[..n]) + terms[n]
  {
    assert terms[..n + 1][..n] == terms[..n];
  }

  ghost predicate Adds(x: seq<real>, y: seq<real>, visit: (real, real, real) -> real, terms: seq<real>) {
    |x| == |y| == |terms| && forall s, i :: 0 <= i < |x| ==> visit(s, x[i], y[i]) == s + terms[i]
  }

  lemma {:induction false} FoldIsSum(x: seq<real>, y: seq<real>, visit: (real, real, real) -> real, terms: seq<real>,
      n: nat)
    requires Adds(x, y, visit, terms) && n <= |x|
    ensures DenseFold(x, y, n, 0.0, visit) == SumOf(terms[..n])
  {
    if n > 0 {
      FoldIsSum(x, y, visit, terms, n - 1);
      SumPrefix(terms, n - 1);
    }
  }

  lemma SquareOfGap(x: real, y: real)
    ensures var d := if x < y then y - x else x - y; d * d == (x - y) * (x - y)
  {
  }

  lemma SquaresAdd(x: seq<real>, y: seq<real>)
    requires |x| == |y|
    ensures Adds(x, y, SquaredGap, Products(Differences(x, y), Differences(x, y)))
  {
    var d := Differences(x, y);
    hide Differences, Products;
    forall s, i | 0 <= i < |x| ensures SquaredGap(s, x[i], y[i]) == s + Products(d, d)[i] { SquareOfGap(x[i], y[i]); }
  }

  /** What the three folds add up. */
  lemma FoldsAreTotals(x: seq<real>, y: seq<real>)
    requires |x| == |y|
    ensures DenseFold(x, y, |x|, 0.0, Product) == SumOf(Products(x, y))
    ensures DenseFold(x, y, |x|, 0.0, Gap) == SumOf(Differences(x, y))
    ensures DenseFold(x, y, |x|, 0.0, SquaredGap) == SumOf(Products(Differences(x, y), Differences(x, y)))
  {
    hide SumOf, DenseFold, Products, Differences;
    var d := Differences(x, y);
    SquaresAdd(x, y);
    FoldIsSum(x, y, Product, Products(x, y), |x|);
    FoldIsSum(x, y, Gap, d, |x|);
    FoldIsSum(x, y, SquaredGap, Products(d, d), |x|);
    assert Products(x, y)[..|x|] == Products(x, y) && d[..|x|] == d && Products(d, d)[..|x|] == Products(d, d);
  }

  /** Different dimensions are an error. */
  method InnerProduct(a: Sparsevec, b: Sparsevec) returns (d: Option<real>)
    requires Valid(a) && Valid(b)
    ensures d.Some? <==> a.dim == b.dim
    ensures d.Some? ==> d.value == DenseFold(Dense(a), Dense(b), a.dim, 0.0, Product)
                        == SumOf(Products(Dense(a), Dense(b)))
  {
    if a.dim != b.dim {
      return None;
    }
    AllNeutral();
    FoldsAreTotals(Dense(a), Dense(b));
    var acc := SparseWalk(a, b, 0.0, Product);
    d := Some(acc);
  }

  method L2SquaredDistance(a: Sparsevec, b: Sparsevec) returns (d: Option<real>)
    requires Valid(a) && Valid(b)
    ensures d.Some? <==> a.dim == b.dim
    ensures d.Some? ==> d.value == DenseFold(Dense(a), Dense(b), a.dim, 0.0, SquaredGap)
    ensures d.Some? ==> var gaps := Differences(Dense(a), Dense(b)); d.value == SumOf(Products(gaps, gaps))
  {
    if a.dim != b.dim {
      return None;
    }
    AllNeutral();
    FoldsAreTotals(Dense(a), Dense(b));
    var acc := SparseWalk(a, b, 0.0, SquaredGap);
    d := Some(acc);
  }

  method L1Distance(a: Sparsevec, b: Sparsevec) returns (d: Option<real>)
    requires Valid(a) && Valid(b)
    ensures d.Some? <==> a.dim == b.dim
    ensures d.Some? ==> d.value == DenseFold(Dense(a), Dense(b), a.dim, 0.0, Gap)
                        == SumOf(Differences(Dense(a), Dense(b)))
  {
    if a.dim != b.dim {
      return None;
    }
    AllNeutral();
    FoldsAreTotals(Dense(a), Dense(b));
    var acc := SparseWalk(a, b, 0.0, Gap);
    d := Some(acc);
  }
}
