/** Distance kernels over abstract floating-point operations: nothing is assumed of addition, so an
    equality proved here holds bit for bit. */
module Kernels {

  /** The operations on elements `E` and accumulators `F`. `finish` clamps and subtracts from one. */
  datatype Ops<!E, !F> = Ops(zero: F, add: (F, F) -> F, product: (E, E) -> F, times: (F, F) -> F, root: F -> F,
                             divide: (F, F) -> F, finish: F -> F, isZero: F -> bool)

  /** Multiplication commutes. Addition need not associate or commute. */
  ghost predicate Commutes<E(!new), F(!new)>(ops: Ops<E, F>) {
    && (forall x, y :: ops.product(x, y) == ops.product(y, x))
    && (forall p, q :: ops.times(p, q) == ops.times(q, p))
  }

  const LANES: nat := 8

  function Min(m: nat, n: nat): nat { if m < n then m else n }

  function Terms<E, F>(ops: Ops<E, F>, a: seq<E>, b: seq<E>): (r: seq<F>)
    ensures |r| == Min(|a|, |b|) && forall i :: 0 <= i < |r| ==> r[i] == ops.product(a[i], b[i])
  {
    seq(Min(|a|, |b|), i requires 0 <= i < Min(|a|, |b|) => ops.product(a[i], b[i]))
  }

  /** Lane `i` after `n` whole chunks. */
  function Lane<E, F>(ops: Ops<E, F>, terms: seq<F>, i: nat, n: nat): F
    requires i < LANES && LANES * n <= |terms|
  {
    if n == 0 then ops.zero else ops.add(Lane(ops, terms, i, n - 1), terms[LANES * (n - 1) + i])
  }

  /** The first `n` lanes added up, after `chunks` whole chunks. */
  function LaneTotal<E, F>(ops: Ops<E, F>, terms: seq<F>, chunks: nat, n: nat): F
    requires n <= LANES && LANES * chunks <= |terms|
  {
    if n == 0 then ops.zero else ops.add(LaneTotal(ops, terms, chunks, n - 1), Lane(ops, terms, n - 1, chunks))
  }

  /** The lanes, then the elements after the last whole chunk, up to `n`. */
  function WithRest<E, F>(ops: Ops<E, F>, terms: seq<F>, n: nat): F
    requires LANES * (|terms| / LANES) <= n <= |terms|
  {
    if n == LANES * (|terms| / LANES) then LaneTotal(ops, terms, |terms| / LANES, LANES)
    else ops.add(WithRest(ops, terms, n - 1), terms[n - 1])
  }

  function Sum<E, F>(ops: Ops<E, F>, terms: seq<F>): F {
    WithRest(ops, terms, |terms|)
  }

  /** `lane_sum`: eight running sums over whole chunks, then one chain over the lanes and the rest. */
  method LaneSum<E, F>(ops: Ops<E, F>, a: seq<E>, b: seq<E>) returns (s: F)
    ensures s == Sum(ops, Terms(ops, a, b))
  {
    ghost var terms := Terms(ops, a, b);
    var n := Min(|a|, |b|);
    var chunks := n / LANES;
    var lanes := seq(LANES, _ => ops.zero);
    for c := 0 to chunks
      invariant |lanes| == LANES && forall i :: 0 <= i < LANES ==> lanes[i] == Lane(ops, terms, i, c)
    {
      lanes := AddChunk(ops, a, b, lanes, c);
    }
    s := ops.zero;
    for i := 0 to LANES
      invariant s == LaneTotal(ops, terms, chunks, i)
    {
      s := ops.add(s, lanes[i]);
    }
    for i := LANES * chunks to n
      invariant s == WithRest(ops, terms, i)
    {
      s := ops.add(s, ops.product(a[i], b[i]));
    }
  }

  /** Adds chunk `c` to the lanes. */
  method AddChunk<E, F>(ops: Ops<E, F>, a: seq<E>, b: seq<E>, lanes0: seq<F>, c: nat) returns (lanes: seq<F>)
    requires LANES * (c + 1) <= Min(|a|, |b|) && |lanes0| == LANES
    requires forall i :: 0 <= i < LANES ==> lanes0[i] == Lane(ops, Terms(ops, a, b), i, c)
    ensures |lanes| == LANES && forall i :: 0 <= i < LANES ==> lanes[i] == Lane(ops, Terms(ops, a, b), i, c + 1)
  {
    ghost var terms := Terms(ops, a, b);
    lanes := lanes0;
    for i := 0 to LANES
      invariant |lanes| == LANES
      invariant forall j :: 0 <= j < LANES ==> lanes[j] == Lane(ops, terms, j, if j < i then c + 1 else c)
    {
      lanes := lanes[i := ops.add(lanes[i], ops.product(a[LANES * c + i], b[LANES * c + i]))];
    }
  }

  // ---------------------------------------------------------------- over the reals

  /** Addition without rounding. */
  ghost predicate Exact<E(!new)>(ops: Ops<E, real>) {
    ops.zero == 0.0 && forall x, y :: ops.add(x, y) == x + y
  }

  function Total(terms: seq<real>, n: nat): real
    requires n <= |terms|
  {
    if n == 0 then 0.0 else Total(terms, n - 1) + terms[n - 1]
  }

  /** One more chunk adds its first `n` terms to the first `n` lanes. */
  lemma {:induction false} ChunkAdds<E(!new)>(ops: Ops<E, real>, terms: seq<real>, chunks: nat, n: nat)
    requires Exact(ops) && n <= LANES && LANES * (chunks + 1) <= |terms|
    ensures LaneTotal(ops, terms, chunks + 1, n) - LaneTotal(ops, terms, chunks, n)
              == Total(terms, LANES * chunks + n) - Total(terms, LANES * chunks)
  {
    if n > 0 {
      ChunkAdds(ops, terms, chunks, n - 1);
      var at := LANES * chunks + (n - 1);
      assert Total(terms, at + 1) == Total(terms, at) + terms[at];
      assert Lane(ops, terms, n - 1, chunks + 1) == Lane(ops, terms, n - 1, chunks) + terms[at];
    }
  }

  lemma {:induction false} NoChunks<E(!new)>(ops: Ops<E, real>, terms: seq<real>, n: nat)
    requires Exact(ops) && n <= LANES
    ensures LaneTotal(ops, terms, 0, n) == 0.0
  {
    if n > 0 { NoChunks(ops, terms, n - 1); }
  }

  lemma {:induction false} LanesCover<E(!new)>(ops: Ops<E, real>, terms: seq<real>, chunks: nat)
    requires Exact(ops) && LANES * chunks <= |terms|
    ensures LaneTotal(ops, terms, chunks, LANES) == Total(terms, LANES * chunks)
  {
    if chunks == 0 {
      NoChunks(ops, terms, LANES);
    } else {
      LanesCover(ops, terms, chunks - 1);
      ChunkAdds(ops, terms, chunks - 1, LANES);
    }
  }

  lemma {:induction false} RestCovers<E(!new)>(ops: Ops<E, real>, terms: seq<real>, n: nat)
    requires Exact(ops) && LANES * (|terms| / LANES) <= n <= |terms|
    ensures WithRest(ops, terms, n) == Total(terms, n)
  {
    if n == LANES * (|terms| / LANES) {
      LanesCover(ops, terms, |terms| / LANES);
    } else {
      RestCovers(ops, terms, n - 1);
    }
  }

  /** Without rounding, the lanes and the rest add every term exactly once. */
  lemma SumIsTotal<E(!new)>(ops: Ops<E, real>, terms: seq<real>)
    requires Exact(ops)
    ensures Sum(ops, terms) == Total(terms, |terms|)
  {
    RestCovers(ops, terms, |terms|);
  }

  /** The inner product of two vectors of the same length. */
  function Inner(a: seq<real>, b: seq<real>): real
    requires |a| == |b|
  {
    if a == [] then 0.0 else Inner(a[..|a| - 1], b[..|b| - 1]) + a[|a| - 1] * b[|b| - 1]
  }

  // ---------------------------------------------------------------- distances

  function Dot<E, F>(ops: Ops<E, F>, a: seq<E>, b: seq<E>): F { Sum(ops, Terms(ops, a, b)) }

  function Norm2<E, F>(ops: Ops<E, F>, a: seq<E>): F { Sum(ops, Terms(ops, a, a)) }

  /** The terms are the same either way round, so the sum is, in the same order of additions. */
  lemma DotSymmetric<E(!new), F(!new)>(ops: Ops<E, F>, a: seq<E>, b: seq<E>)
    requires Commutes(ops)
    ensures Dot(ops, a, b) == Dot(ops, b, a)
  {
    assert Terms(ops, a, b) == Terms(ops, b, a);
  }

  /** Undefined when either norm is zero. */
  datatype Distance<F> = Nan | Value(d: F) | DimMismatch

  /** `cosine_distance_with_qnorm`: the squared norm of `b` is supplied. */
  function CosineWithNorm<E, F>(ops: Ops<E, F>, a: seq<E>, b: seq<E>, qnorm2: F): Distance<F> {
    var na := Norm2(ops, a);
    if ops.isZero(na) || ops.isZero(qnorm2) then Nan
    else Value(ops.finish(ops.divide(Dot(ops, a, b), ops.times(ops.root(na), ops.root(qnorm2)))))
  }

  /** The plain two-argument definition. */
  function Cosine<E, F>(ops: Ops<E, F>, a: seq<E>, b: seq<E>): Distance<F> {
    CosineWithNorm(ops, a, b, Norm2(ops, b))
  }

  /** Passing the operands the other way round gives the same bits. */
  lemma CosineSymmetric<E(!new), F(!new)>(ops: Ops<E, F>, a: seq<E>, b: seq<E>)
    requires Commutes(ops)
    ensures Cosine(ops, a, b) == Cosine(ops, b, a)
  {
    DotSymmetric(ops, a, b);
  }

  // ---------------------------------------------------------------- what the cosine is

  /** Arithmetic on real elements without rounding. */
  ghost predicate ExactOps(ops: Ops<real, real>) {
    && Exact(ops)
    && (forall x, y :: ops.product(x, y) == x * y)
    && (forall p, q :: ops.times(p, q) == p * q)
    && (forall p, q :: q != 0.0 ==> ops.divide(p, q) * q == p)
    && (forall p :: p >= 0.0 ==> ops.root(p) >= 0.0 && ops.root(p) * ops.root(p) == p)
    && (forall p :: ops.isZero(p) <==> p == 0.0)
  }

  lemma {:induction false} TotalIsInner(ops: Ops<real, real>, a: seq<real>, b: seq<real>, n: nat)
    requires ExactOps(ops) && |a| == |b| && n <= |a|
    ensures Total(Terms(ops, a, b), n) == Inner(a[..n], b[..n])
  {
    if n > 0 {
      TotalIsInner(ops, a, b, n - 1);
      assert a[..n][..n - 1] == a[..n - 1] && b[..n][..n - 1] == b[..n - 1];
    }
  }

  lemma DotIsInner(ops: Ops<real, real>, a: seq<real>, b: seq<real>)
    requires ExactOps(ops) && |a| == |b|
    ensures Dot(ops, a, b) == Inner(a, b)
  {
    SumIsTotal(ops, Terms(ops, a, b));
    TotalIsInner(ops, a, b, |a|);
    assert a[..|a|] == a && b[..|b|] == b;
  }

  lemma {:induction false} SquaresNotNegative(a: seq<real>)
    ensures Inner(a, a) >= 0.0
  {
    if a != [] { SquaresNotNegative(a[..|a| - 1]); }
  }

  lemma LengthPositive(ops: Ops<real, real>, p: real)
    requires ExactOps(ops) && p > 0.0
    ensures ops.root(p) > 0.0
  {
    assert ops.root(p) * ops.root(p) == p;
  }

  lemma PositiveProduct(p: real, q: real)
    requires p > 0.0 && q > 0.0
    ensures p * q > 0.0
  {
  }

  /** Without rounding the distance is undefined exactly when a vector has length zero, and otherwise comes from
      the number that, times both lengths, is the inner product. */
  lemma CosineIsQuotient(ops: Ops<real, real>, a: seq<real>, b: seq<real>)
    requires ExactOps(ops) && |a| == |b|
    ensures Cosine(ops, a, b).Nan? <==> Inner(a, a) == 0.0 || Inner(b, b) == 0.0
    ensures Inner(a, a) != 0.0 && Inner(b, b) != 0.0 ==>
              var lengths := ops.root(Inner(a, a)) * ops.root(Inner(b, b));
              exists c :: c * lengths == Inner(a, b) && Cosine(ops, a, b) == Value(ops.finish(c))
  {
    hide Inner, Dot, Norm2, Sum, Terms, Exact;
    DotIsInner(ops, a, b);
    NormsAreInner(ops, a, b);
    if Inner(a, a) != 0.0 && Inner(b, b) != 0.0 {
      var p, q := ops.root(Inner(a, a)), ops.root(Inner(b, b));
      LengthPositive(ops, Inner(a, a));
      LengthPositive(ops, Inner(b, b));
      PositiveProduct(p, q);
      var c := ops.divide(Inner(a, b), p * q);
      assert c * (p * q) == Inner(a, b);
    }
  }

  lemma NormsAreInner(ops: Ops<real, real>, a: seq<real>, b: seq<real>)
    requires ExactOps(ops)
    ensures Norm2(ops, a) == Inner(a, a) >= 0.0 && Norm2(ops, b) == Inner(b, b) >= 0.0
  {
    hide Inner, Sum, Terms, ExactOps;
    DotIsInner(ops, a, a);
    DotIsInner(ops, b, b);
    SquaresNotNegative(a);
    SquaresNotNegative(b);
  }
}
