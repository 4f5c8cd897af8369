/** `sum(sparsevec)`: a dense running sum, merged pairwise by parallel workers, turned sparse at the end. */
module SparseSum {
  import opened Options
  import opened Sparsevec

  /** A dense `vector` holds at most this many elements. */
  const MAX_VECTOR_DIM: int := 16_000

  /** `dim` is 0 until the first row. */
  datatype Accum = Accum(dim: int, sum: seq<real>, count: nat)

  predicate AllValid(rows: seq<Sparsevec>) {
    forall r :: 0 <= r < |rows| ==> Valid(rows[r])
  }

  /** Rows that can be summed: one dimension, small enough to keep dense. */
  predicate Addable(rows: seq<Sparsevec>) {
    forall r :: 0 <= r < |rows| ==> rows[r].dim == rows[0].dim <= MAX_VECTOR_DIM
  }

  /** Element `i` summed over all rows. */
  function Total(rows: seq<Sparsevec>, i: int): real
    requires AllValid(rows)
  {
    if rows == [] then 0.0 else
      var v := rows[|rows| - 1];
      Total(rows[..|rows| - 1], i) + ElementTo(v, |v.indices|, i)
  }

  function Totals(rows: seq<Sparsevec>): (r: seq<real>)
    requires AllValid(rows)
    ensures rows != [] ==> |r| == rows[0].dim
    ensures forall i :: 0 <= i < |r| ==> r[i] == Total(rows, i)
  {
    if rows == [] then [] else
      var n: nat := rows[0].dim;
      seq(n, i => Total(rows, i))
  }

  /** The state after these rows, in whatever way they were grouped. No state stands for no rows. */
  ghost predicate Represents(state: Option<Accum>, rows: seq<Sparsevec>) {
    && AllValid(rows) && Addable(rows)
    && (state.None? ==> rows == [])
    && (state.Some? ==> state.value.count == |rows| && state.value.sum == Totals(rows)
                        && state.value.dim == if rows == [] then 0 else rows[0].dim)
  }

  lemma {:induction false} TotalJoin(a: seq<Sparsevec>, b: seq<Sparsevec>, i: int)
    requires AllValid(a) && AllValid(b) && AllValid(a + b)
    ensures Total(a + b, i) == Total(a, i) + Total(b, i)
  {
    if b == [] {
      assert a + b == a;
    } else {
      TotalJoin(a, b[..|b| - 1], i);
      assert (a + b)[..|a + b| - 1] == a + b[..|b| - 1];
    }
  }

  /** Adds one row into the running sum; fails on a second dimension or one too large to keep dense. */
  method Accumulate(state: Option<Accum>, v: Sparsevec, ghost rows: seq<Sparsevec>) returns (r: Option<Accum>)
    requires Valid(v) && Represents(state, rows)
    ensures r.Some? <==> Addable(rows + [v])
    ensures r.Some? ==> Represents(r, rows + [v])
  {
    var st := if state.Some? then state.value else Accum(0, [], 0);
    if st.dim == 0 {
      if v.dim > MAX_VECTOR_DIM {
        assert (rows + [v])[0].dim > MAX_VECTOR_DIM;
        return None;
      }
      st := Accum(v.dim, Zeros(v.dim), st.count);
    } else if st.dim != v.dim {
      assert (rows + [v])[|rows|] == v && (rows + [v])[0] == rows[0];
      return None;
    }
    var sum := AddEntries(st.sum, v);
    r := Some(Accum(st.dim, sum, st.count + 1));
    Extended(rows, v, sum);
  }

  function Zeros(n: nat): (r: seq<real>)
    ensures |r| == n && forall i :: 0 <= i < n ==> r[i] == 0.0
  {
    seq(n, _ => 0.0)
  }

  method AddEntries(sum0: seq<real>, v: Sparsevec) returns (sum: seq<real>)
    requires Valid(v) && |sum0| == v.dim
    ensures |sum| == v.dim && forall i :: 0 <= i < v.dim ==> sum[i] == sum0[i] + ElementTo(v, |v.indices|, i)
  {
    sum := sum0;
    for k := 0 to |v.indices|
      invariant |sum| == v.dim && forall i :: 0 <= i < v.dim ==> sum[i] == sum0[i] + ElementTo(v, k, i)
    {
      AbsentElement(v, k, v.indices[k]);
      sum := sum[v.indices[k] := sum[v.indices[k]] + v.values[k]];
    }
  }

  lemma ExtendedRows(rows: seq<Sparsevec>, v: Sparsevec)
    requires Valid(v) && AllValid(rows) && Addable(rows) && v.dim <= MAX_VECTOR_DIM
             && (rows != [] ==> rows[0].dim == v.dim)
    ensures AllValid(rows + [v]) && Addable(rows + [v]) && (rows + [v])[0].dim == v.dim
  {
    hide Valid;
    assert forall r :: 0 <= r < |rows + [v]| ==> (rows + [v])[r] == if r < |rows| then rows[r] else v;
  }

  lemma Extended(rows: seq<Sparsevec>, v: Sparsevec, sum: seq<real>)
    requires Valid(v) && AllValid(rows) && Addable(rows) && v.dim <= MAX_VECTOR_DIM
             && (rows != [] ==> rows[0].dim == v.dim)
    requires |sum| == v.dim && forall i :: 0 <= i < v.dim ==> sum[i] == Total(rows, i) + ElementTo(v, |v.indices|, i)
    ensures AllValid(rows + [v]) && Addable(rows + [v]) && sum == Totals(rows + [v])
  {
    ExtendedRows(rows, v);
    hide AllValid, Addable, Valid, ElementTo;
    assert (rows + [v])[..|rows|] == rows;
    forall i: nat | i < |sum| ensures sum[i] == Total(rows + [v], i) { TotalPush(rows, v, i); }
  }

  lemma TotalPush(rows: seq<Sparsevec>, v: Sparsevec, i: int)
    requires AllValid(rows + [v]) && AllValid(rows)
    ensures |v.indices| == |v.values| && Total(rows + [v], i) == Total(rows, i) + ElementTo(v, |v.indices|, i)
  {
    assert (rows + [v])[..|rows|] == rows && (rows + [v])[|rows|] == v;
  }

  /** Merges two partial states; fails when both hold rows and the dimensions differ. */
  method Combine(s1: Option<Accum>, s2: Option<Accum>, ghost rows1: seq<Sparsevec>, ghost rows2: seq<Sparsevec>)
    returns (ok: bool, r: Option<Accum>)
    requires Represents(s1, rows1) && Represents(s2, rows2)
    ensures ok <==> Addable(rows1 + rows2)
    ensures ok ==> Represents(r, rows1 + rows2)
  {
    assert rows1 == [] ==> rows1 + rows2 == rows2;
    assert rows2 == [] ==> rows1 + rows2 == rows1;
    if s1.None? || s2.None? {
      return true, if s1.None? then s2 else s1;
    }
    var a, b := s1.value, s2.value;
    if a.count == 0 {
      return true, s2;
    }
    if b.count == 0 {
      return true, s1;
    }
    if a.dim != b.dim {
      assert (rows1 + rows2)[0] == rows1[0] && (rows1 + rows2)[|rows1|] == rows2[0];
      return false, None;
    }
    var sum := a.sum;
    for i := 0 to |b.sum|
      invariant |sum| == |a.sum| == |b.sum|
      invariant forall j :: 0 <= j < |sum| ==> sum[j] == if j < i then a.sum[j] + b.sum[j] else a.sum[j]
    {
      sum := sum[i := sum[i] + b.sum[i]];
    }
    Joined(rows1, rows2, sum);
    ok, r := true, Some(Accum(a.dim, sum, a.count + b.count));
  }

  lemma Joined(rows1: seq<Sparsevec>, rows2: seq<Sparsevec>, sum: seq<real>)
    requires AllValid(rows1) && Addable(rows1) && AllValid(rows2) && Addable(rows2)
    requires rows1 != [] && rows2 != [] && rows1[0].dim == rows2[0].dim == |sum|
    requires forall i :: 0 <= i < |sum| ==> sum[i] == Total(rows1, i) + Total(rows2, i)
    ensures AllValid(rows1 + rows2) && Addable(rows1 + rows2) && sum == Totals(rows1 + rows2)
  {
    var all := rows1 + rows2;
    assert forall r :: 0 <= r < |all| ==> all[r] == if r < |rows1| then rows1[r] else rows2[r - |rows1|];
    forall i | 0 <= i < |sum| ensures sum[i] == Total(all, i) { TotalJoin(rows1, rows2, i); }
  }

  /** No rows give no value; else the sparse form of the dense sum. */
  method SumFinal(state: Accum, ghost rows: seq<Sparsevec>) returns (r: Option<Sparsevec>)
    requires Represents(Some(state), rows)
    ensures rows == [] ==> r.None?
    ensures rows != [] ==> r == Some(SparseForm(Totals(rows))) && Valid(r.value) && Dense(r.value) == Totals(rows)
  {
    if state.count == 0 {
      return None;
    }
    var v := FromDense(state.sum);
    r := Some(v);
  }

  // ---------------------------------------------------------------- any plan

  /** How the rows were split: one worker scanning some, or two parts combined. */
  datatype Plan = Scan(rows: seq<Sparsevec>) | Gather(left: Plan, right: Plan)

  function RowsOf(plan: Plan): seq<Sparsevec> {
    match plan
    case Scan(rows) => rows
    case Gather(left, right) => RowsOf(left) + RowsOf(right)
  }

  lemma PartAddable(a: seq<Sparsevec>, b: seq<Sparsevec>)
    requires Addable(a + b)
    ensures Addable(a) && Addable(b)
  {
    var all := a + b;
    assert forall r :: 0 <= r < |a| ==> a[r] == all[r];
    assert forall r :: 0 <= r < |b| ==> b[r] == all[|a| + r];
  }

  method RunScan(rows: seq<Sparsevec>) returns (ok: bool, r: Option<Accum>)
    requires AllValid(rows)
    ensures ok <==> Addable(rows)
    ensures ok ==> Represents(r, rows)
  {
    r := None;
    for i := 0 to |rows|
      invariant Represents(r, rows[..i])
    {
      assert rows[..i] + [rows[i]] == rows[..i + 1] && rows[..i + 1] + rows[i + 1..] == rows;
      r := Accumulate(r, rows[i], rows[..i]);
      if r.None? {
        if Addable(rows) { PartAddable(rows[..i + 1], rows[i + 1..]); }
        return false, None;
      }
    }
    assert rows[..|rows|] == rows;
    ok := true;
  }

  /** Any tree of combine steps sums the same rows, and fails exactly when the rows cannot be summed. */
  method RunPlan(plan: Plan) returns (ok: bool, r: Option<Accum>)
    requires AllValid(RowsOf(plan))
    ensures ok <==> Addable(RowsOf(plan))
    ensures ok ==> Represents(r, RowsOf(plan))
  {
    match plan
    case Scan(rows) =>
      ok, r := RunScan(rows);
    case Gather(left, right) =>
      ghost var a, b := RowsOf(left), RowsOf(right);
      assert forall i :: 0 <= i < |a| ==> a[i] == (a + b)[i];
      assert forall i :: 0 <= i < |b| ==> b[i] == (a + b)[|a| + i];
      if Addable(RowsOf(plan)) { PartAddable(a, b); }
      var okLeft, l := RunPlan(left);
      if !okLeft {
        return false, None;
      }
      var okRight, s := RunPlan(right);
      if !okRight {
        return false, None;
      }
      ok, r := Combine(l, s, a, b);
  }
}
