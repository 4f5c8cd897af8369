/** The `sparsevec` type: its invariant, its dense form, and its text form `{i:v,...}/dim` with 1-based indices. */
module Sparsevec {
  import opened Collections
  import opened Options
  import opened Text

  const MAX_DIM: int := 1_000_000_000

  /** A parsed or given float; the stored ones are finite. */
  datatype Float = Finite(value: real) | NotFinite

  /** `indices` are 0-based. */
  datatype Sparsevec = Sparsevec(dim: int, indices: seq<int>, values: seq<real>)

  predicate Valid(v: Sparsevec) {
    && 1 <= v.dim <= MAX_DIM && |v.indices| == |v.values|
    && Ascending(v.indices)
    && forall k :: 0 <= k < |v.indices| ==> 0 <= v.indices[k] < v.dim
  }

  datatype NewResult =
    | Made(v: Sparsevec)
    | BadDim
    | LengthMismatch
    | NotIncreasing(at: nat)
    | OutOfRange(at: nat)
    | NonFiniteValue(at: nat)

  function Values(values: seq<Float>): (r: seq<real>)
    requires forall k :: 0 <= k < |values| ==> values[k].Finite?
    ensures |r| == |values| && forall k :: 0 <= k < |values| ==> Float.Finite(r[k]) == values[k]
  {
    seq(|values|, k requires 0 <= k < |values| => values[k].value)
  }

  /** The first `n` positions pass every check. */
  predicate GoodUpTo(dim: int, indices: seq<int>, values: seq<Float>, n: nat)
    requires n <= |indices| == |values|
  {
    Ascending([-1] + indices[..n]) && forall k :: 0 <= k < n ==> 0 <= indices[k] < dim && values[k].Finite?
  }

  /** Position `at` is the first that fails, and this check is the first it fails. */
  predicate FirstFailure(r: NewResult, dim: int, indices: seq<int>, values: seq<Float>)
    requires |indices| == |values| && (r.NotIncreasing? || r.OutOfRange? || r.NonFiniteValue?)
  {
    && r.at < |indices| && GoodUpTo(dim, indices, values, r.at)
    && var increasing := Ascending([-1] + indices[..r.at + 1]);
       match r
       case NotIncreasing(_) => !increasing
       case OutOfRange(at) => increasing && indices[at] >= dim
       case NonFiniteValue(at) => increasing && indices[at] < dim && values[at] == NotFinite
  }

  /** The constructor's checks hold exactly for the well-formed vectors, and name the first bad position. */
  method New(dim: int, indices: seq<int>, values: seq<Float>) returns (r: NewResult)
    ensures r.Made? <==> 1 <= dim <= MAX_DIM && |indices| == |values| && Ascending(indices)
                         && (forall k :: 0 <= k < |indices| ==> 0 <= indices[k] < dim && values[k].Finite?)
    ensures r.Made? ==> Valid(r.v) && r.v == Sparsevec(dim, indices, Values(values))
    ensures r.BadDim? <==> !(1 <= dim <= MAX_DIM)
    ensures r.LengthMismatch? <==> 1 <= dim <= MAX_DIM && |indices| != |values|
    ensures r.NotIncreasing? || r.OutOfRange? || r.NonFiniteValue? ==>
              |indices| == |values| && FirstFailure(r, dim, indices, values)
  {
    if dim < 1 || dim > MAX_DIM {
      return BadDim;
    }
    if |indices| != |values| {
      return LengthMismatch;
    }
    var prev := -1;
    for k := 0 to |indices|
      invariant prev == (if k == 0 then -1 else indices[k - 1])
      invariant GoodUpTo(dim, indices, values, k)
    {
      StepAscends(indices, k, prev);
      if indices[k] <= prev {
        if Ascending(indices) { NonNegative(indices, prev, k); }
        return NotIncreasing(k);
      }
      if indices[k] < 0 || indices[k] >= dim {
        return OutOfRange(k);
      }
      if values[k] == NotFinite {
        return NonFiniteValue(k);
      }
      prev := indices[k];
    }
    assert indices[..|indices|] == indices;
    Suffix(indices);
    r := Made(Sparsevec(dim, indices, Values(values)));
  }

  lemma StepAscends(indices: seq<int>, k: nat, prev: int)
    requires k < |indices| && Ascending([-1] + indices[..k]) && prev == (if k == 0 then -1 else indices[k - 1])
    ensures Ascending([-1] + indices[..k + 1]) <==> indices[k] > prev
    ensures indices[k] > prev ==> indices[k] >= 0
  {
    var before, upTo := [-1] + indices[..k], [-1] + indices[..k + 1];
    assert forall i :: 0 <= i <= k ==> upTo[i] == before[i];
    assert upTo[k] == prev && upTo[k + 1] == indices[k];
    assert before[0] == -1;
  }

  lemma Suffix(indices: seq<int>)
    requires Ascending([-1] + indices)
    ensures Ascending(indices) && forall k :: 0 <= k < |indices| ==> indices[k] >= 0
  {
    var all := [-1] + indices;
    forall i, j | 0 <= i < j < |indices| ensures indices[i] < indices[j] { assert all[i + 1] < all[j + 1]; }
    forall k | 0 <= k < |indices| ensures indices[k] >= 0 { assert all[0] < all[k + 1]; }
  }

  lemma NonNegative(indices: seq<int>, prev: int, k: nat)
    requires k < |indices| && prev == (if k == 0 then -1 else indices[k - 1]) && indices[k] <= prev
             && Ascending(indices)
    ensures k == 0 && indices[0] < 0
  {
  }

  // ---------------------------------------------------------------- the dense form

  /** Element `i`: the value stored for that index, 0 when none is. */
  function ElementTo(v: Sparsevec, n: nat, i: int): real
    requires n <= |v.indices| && n <= |v.values|
  {
    if n == 0 then 0.0 else if v.indices[n - 1] == i then v.values[n - 1] else ElementTo(v, n - 1, i)
  }

  function Dense(v: Sparsevec): (d: seq<real>)
    requires Valid(v)
    ensures |d| == v.dim && forall i :: 0 <= i < v.dim ==> d[i] == ElementTo(v, |v.indices|, i)
  {
    seq(v.dim, i requires 0 <= i < v.dim => ElementTo(v, |v.indices|, i))
  }

  lemma {:induction false} StoredElement(v: Sparsevec, n: nat, k: nat)
    requires Valid(v) && k < n <= |v.indices|
    ensures ElementTo(v, n, v.indices[k]) == v.values[k]
  {
    if k < n - 1 { StoredElement(v, n - 1, k); }
  }

  lemma {:induction false} AbsentElement(v: Sparsevec, n: nat, i: int)
    requires n <= |v.indices| == |v.values| && forall k :: 0 <= k < n ==> v.indices[k] != i
    ensures ElementTo(v, n, i) == 0.0
  {
    if n > 0 { AbsentElement(v, n - 1, i); }
  }

  method ToDense(v: Sparsevec) returns (out: array<real>)
    requires Valid(v)
    ensures fresh(out) && out[..] == Dense(v)
  {
    out := new real[v.dim](_ => 0.0);
    for k := 0 to |v.indices|
      invariant forall i :: 0 <= i < v.dim ==> out[i] == ElementTo(v, k, i)
    {
      out[v.indices[k]] := v.values[k];
    }
  }

  /** The first `n` elements of a dense vector with its zeros left out. */
  function NonZeros(d: seq<real>, n: nat): Sparsevec
    requires n <= |d|
  {
    if n == 0 then Sparsevec(|d|, [], []) else
      var v := NonZeros(d, n - 1);
      if d[n - 1] == 0.0 then v else Sparsevec(|d|, v.indices + [n - 1], v.values + [d[n - 1]])
  }

  function SparseForm(d: seq<real>): Sparsevec {
    NonZeros(d, |d|)
  }

  lemma {:induction false} NonZerosShape(d: seq<real>, n: nat)
    requires n <= |d|
    ensures var v := NonZeros(d, n);
            && v.dim == |d| && |v.indices| == |v.values| && Ascending(v.indices)
            && (forall k :: 0 <= k < |v.indices| ==> 0 <= v.indices[k] < n && v.values[k] != 0.0)
  {
    if n > 0 { NonZerosShape(d, n - 1); }
  }

  lemma {:induction false} NonZerosElement(d: seq<real>, n: nat, i: nat)
    requires i < |d| && n <= |d| && |NonZeros(d, n).indices| == |NonZeros(d, n).values|
    ensures ElementTo(NonZeros(d, n), |NonZeros(d, n).indices|, i) == if i < n then d[i] else 0.0
  {
    NonZerosShape(d, n);
    if n > 0 {
      var v, w := NonZeros(d, n - 1), NonZeros(d, n);
      NonZerosShape(d, n - 1);
      NonZerosElement(d, n - 1, i);
      if w != v { ElementPrefix(v, w, |v.indices|, i); }
    }
  }

  /** The sparse form is well-formed, stores no zero, and has the dense vector as its dense form. */
  lemma SparseFormDense(d: seq<real>)
    requires 1 <= |d| <= MAX_DIM
    ensures Valid(SparseForm(d)) && Dense(SparseForm(d)) == d
    ensures forall k :: 0 <= k < |SparseForm(d).values| ==> SparseForm(d).values[k] != 0.0
  {
    NonZerosShape(d, |d|);
    forall i | 0 <= i < |d| ensures Dense(SparseForm(d))[i] == d[i] { NonZerosElement(d, |d|, i); }
  }

  /** Dense to sparse, keeping the elements that are not zero. */
  method FromDense(d: seq<real>) returns (v: Sparsevec)
    requires 1 <= |d| <= MAX_DIM
    ensures v == SparseForm(d) && Valid(v) && Dense(v) == d
  {
    var indices: seq<int>, values: seq<real> := [], [];
    for i := 0 to |d|
      invariant Sparsevec(|d|, indices, values) == NonZeros(d, i)
    {
      if d[i] != 0.0 {
        indices, values := indices + [i], values + [d[i]];
      }
    }
    v := Sparsevec(|d|, indices, values);
    SparseFormDense(d);
  }

  lemma {:induction false} ElementPrefix(v: Sparsevec, w: Sparsevec, n: nat, i: int)
    requires n <= |v.indices| == |v.values| && |v.indices| <= |w.indices| == |w.values|
    requires v.indices == w.indices[..|v.indices|] && v.values == w.values[..|v.values|]
    ensures ElementTo(v, n, i) == ElementTo(w, n, i)
  {
    if n > 0 { ElementPrefix(v, w, n - 1, i); }
  }

  // ---------------------------------------------------------------- printing

  /** How stored floats are printed and read, and which reals are floats. */
  datatype Floats = Floats(has: real -> bool, show: real -> string, parse: string -> Option<Float>)

  /** Shortest-round-trip printing: reads back as the same float, in plain digits. */
  ghost predicate Faithful(f: Floats) {
    forall v :: f.has(v) ==>
      f.parse(f.show(v)) == Some(Finite(v)) && f.show(v) != [] && NoSpaces(f.show(v)) && ',' !in f.show(v)
  }

  function Token(v: Sparsevec, f: Floats, k: nat): string
    requires Valid(v) && k < |v.indices|
  {
    ShowNat(v.indices[k] + 1) + [':'] + f.show(v.values[k])
  }

  function Tokens(v: Sparsevec, f: Floats): (r: seq<string>)
    requires Valid(v)
    ensures |r| == |v.indices| && forall k :: 0 <= k < |r| ==> r[k] == Token(v, f, k)
  {
    seq(|v.indices|, k requires 0 <= k < |v.indices| => Token(v, f, k))
  }

  function Body(tokens: seq<string>): string {
    if tokens == [] then [] else Join(tokens, ',')
  }

  function Render(v: Sparsevec, f: Floats): string
    requires Valid(v)
  {
    ['{'] + Body(Tokens(v, f)) + ['}'] + ['/'] + ShowNat(v.dim)
  }

  lemma {:induction false} JoinPush(tokens: seq<string>, t: string)
    requires tokens != []
    ensures Join(tokens + [t], ',') == Join(tokens, ',') + [','] + t
  {
    if |tokens| > 1 {
      JoinPush(tokens[1..], t);
      assert (tokens + [t])[1..] == tokens[1..] + [t];
      assert Join(tokens + [t], ',') == tokens[0] + [','] + Join(tokens[1..] + [t], ',');
    }
  }

  /** What has been printed after `i` elements. */
  function Printed(v: Sparsevec, f: Floats, i: nat): string
    requires Valid(v) && i <= |v.indices|
  {
    if i == 0 then ['{'] else
      (if i == 1 then Printed(v, f, 0) else Printed(v, f, i - 1) + [',']) + Token(v, f, i - 1)
  }

  lemma {:induction false} PrintedIsBody(v: Sparsevec, f: Floats, i: nat)
    requires Valid(v) && i <= |v.indices|
    ensures Printed(v, f, i) == ['{'] + Body(Tokens(v, f)[..i])
  {
    hide Token, Join;
    if i > 0 {
      PrintedIsBody(v, f, i - 1);
      assert Tokens(v, f)[..i] == Tokens(v, f)[..i - 1] + [Token(v, f, i - 1)];
      BodyPush(Tokens(v, f)[..i - 1], Token(v, f, i - 1));
      hide Body;
    }
  }

  lemma BodyPush(tokens: seq<string>, t: string)
    ensures ['{'] + Body(tokens + [t]) ==
            (if tokens == [] then ['{'] + Body([]) else ['{'] + Body(tokens) + [',']) + t
  {
    if tokens != [] {
      JoinPush(tokens, t);
      hide Join;
    }
  }

  method Output(v: Sparsevec, f: Floats) returns (buffer: string)
    requires Valid(v)
    ensures buffer == Render(v, f)
  {
    hide Token, ShowNat, Body;
    buffer := ['{'];
    var first := true;
    for i := 0 to |v.indices|
      invariant first == (i == 0)
      invariant buffer == Printed(v, f, i)
    {
      if !first {
        buffer := buffer + [','];
      }
      first := false;
      buffer := buffer + Token(v, f, i);
    }
    PrintedIsBody(v, f, |v.indices|);
    assert Tokens(v, f)[..|v.indices|] == Tokens(v, f);
    buffer := buffer + ['}'];
    buffer := buffer + ['/'];
    buffer := buffer + ShowNat(v.dim);
  }

  lemma TwoTokens(a: string, b: string)
    ensures Body([a, b]) == a + "," + b && Body([]) == ""
  {
    assert [a, b][1..] == [b];
    assert Join([b], ',') == b;
    assert Join([a, b], ',') == a + [','] + Join([b], ',');
    assert [','] == ",";
  }

  lemma PrintedToken(v: Sparsevec, f: Floats, k: nat)
    requires Valid(v) && k < |v.indices| && v.indices[k] < 9
    ensures Token(v, f, k) == [DigitOf(v.indices[k] + 1)] + ":" + f.show(v.values[k])
  {
  }

  /** Indices count from 1 in the text, the dimension comes last. */
  lemma PrintedExample(x: real, y: real, f: Floats)
    ensures Render(Sparsevec(5, [0, 2], [x, y]), f) == "{" + ("1:" + f.show(x)) + "," + ("3:" + f.show(y)) + "}/5"
    ensures Render(Sparsevec(7, [], []), f) == "{}/7"
  {
    var v := Sparsevec(5, [0, 2], [x, y]);
    PrintedToken(v, f, 0);
    PrintedToken(v, f, 1);
    assert ShowNat(5) == "5" && ShowNat(7) == "7";
    hide Token, Body, ShowNat;
    var a, b := "1:" + f.show(x), "3:" + f.show(y);
    assert Token(v, f, 0) == a && Token(v, f, 1) == b;
    TwoTokens(a, b);
    assert Tokens(v, f) == [a, b] && Tokens(Sparsevec(7, [], []), f) == [];
    assert "}/5" == ['}'] + ['/'] + "5" && "{" == ['{'];
    assert ['{'] + (a + "," + b) + ['}'] + ['/'] + "5" == "{" + a + "," + b + "}/5";
  }
}
