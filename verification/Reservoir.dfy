/** Reservoir sample of the rows used to train the coarse cells. Rows are stored unrotated and the whole
    sample is rotated once at the end; which rows are kept depends only on the random stream. */
module Reservoir {
  import opened Collections
  import opened Slots

  /** A vector as the bit patterns of its elements. */
  type Row = seq<nat>

  const ROWS_PER_LIST: nat := 256

  /** One arrival at a reservoir of `cap` places; `j` is the place drawn for it once the reservoir is full. */
  function Keep<T>(kept: seq<T>, cap: nat, x: T, j: nat): (r: seq<T>)
    requires |kept| <= cap
    ensures |r| == if |kept| < cap then |kept| + 1 else cap
  {
    if |kept| < cap then kept + [x] else if j < cap then kept[j := x] else kept
  }

  /** The sample of a whole stream; `draw(n)` is the number drawn for the `n`-th row. */
  function Sampled<T>(stream: seq<T>, cap: nat, draw: nat -> nat): (r: seq<T>)
    ensures |r| == if |stream| < cap then |stream| else cap
  {
    if stream == [] then [] else
      Keep(Sampled(stream[..|stream| - 1], cap, draw), cap, stream[|stream| - 1], draw(|stream|))
  }

  function Map<T, U>(f: T -> U, s: seq<T>): (r: seq<U>)
    ensures |r| == |s| && forall i :: 0 <= i < |s| ==> r[i] == f(s[i])
  {
    seq(|s|, i requires 0 <= i < |s| => f(s[i]))
  }

  /** Selection does not look at the rows, so transforming each sampled row is sampling the transformed rows. */
  lemma {:induction false} DeferredIsEager<T, U>(stream: seq<T>, cap: nat, draw: nat -> nat, f: T -> U)
    ensures Map(f, Sampled(stream, cap, draw)) == Sampled(Map(f, stream), cap, draw)
  {
    if stream != [] {
      DeferredIsEager(stream[..|stream| - 1], cap, draw, f);
      assert Map(f, stream)[..|stream| - 1] == Map(f, stream[..|stream| - 1]);
    }
  }

  /** The `m`-th arrival goes to place `j`: while there is room to the next place, then to the place drawn. */
  predicate GoesTo(m: nat, j: nat, cap: nat, draw: nat -> nat) {
    m > 0 && (if m <= cap then j == m - 1 else j < cap && draw(m) == j)
  }

  /** Of the first `n` arrivals the `m`-th is the last that went to place `j`. */
  predicate LastAt(m: nat, j: nat, n: nat, cap: nat, draw: nat -> nat) {
    m <= n && GoesTo(m, j, cap, draw) && forall l: nat :: m < l <= n ==> !GoesTo(l, j, cap, draw)
  }

  /** Some arrival went to every place of the sample, and the place holds the last one that did. */
  lemma {:induction false} PlaceHoldsLast<T>(stream: seq<T>, cap: nat, draw: nat -> nat, j: nat)
    requires j < |Sampled(stream, cap, draw)|
    ensures exists m: nat :: LastAt(m, j, |stream|, cap, draw)
    ensures forall m: nat :: LastAt(m, j, |stream|, cap, draw) ==> Sampled(stream, cap, draw)[j] == stream[m - 1]
  {
    var n := |stream|;
    if GoesTo(n, j, cap, draw) {
      assert LastAt(n, j, n, cap, draw);
    } else {
      PlaceHoldsLast(stream[..n - 1], cap, draw, j);
      var last: nat :| LastAt(last, j, n - 1, cap, draw);
      assert LastAt(last, j, n, cap, draw);
      forall m: nat | LastAt(m, j, n, cap, draw) ensures LastAt(m, j, n - 1, cap, draw) {
      }
    }
  }

  lemma {:induction false} SmallStreamKept<T>(stream: seq<T>, cap: nat, draw: nat -> nat)
    requires |stream| <= cap
    ensures Sampled(stream, cap, draw) == stream
  {
    if stream != [] { SmallStreamKept(stream[..|stream| - 1], cap, draw); }
  }

  /** A row rotated as it arrives. */
  function One<T>(rotate: seq<T> -> seq<T>, x: T): T {
    if rotate([x]) == [] then x else rotate([x])[0]
  }

  /** Rotating the sample together, once, gives what rotating every arriving row would have given. */
  ghost predicate RotatesLate<T(!new)>(rotate: seq<T> -> seq<T>) {
    forall stream, cap: nat, draw: nat -> nat ::
      rotate(Sampled(stream, cap, draw)) == Sampled(Map(x => One(rotate, x), stream), cap, draw)
  }

  /** For every stream, capacity and draws that holds exactly when the rotation of a row does not depend on
      the rows it is rotated with. */
  lemma RotatesLateIff<T(!new)>(rotate: seq<T> -> seq<T>)
    requires OnePerRow(rotate)
    ensures RotatesLate(rotate) <==> RowWise(rotate)
  {
    if RowWise(rotate) {
      forall stream, cap: nat, draw: nat -> nat
        ensures rotate(Sampled(stream, cap, draw)) == Sampled(Map(x => One(rotate, x), stream), cap, draw)
      {
        var kept := Sampled(stream, cap, draw);
        DeferredIsEager(stream, cap, draw, x => One(rotate, x));
        RowWiseIsMap(rotate, kept);
      }
    }
    if RotatesLate(rotate) {
      forall rows: seq<T>, i | 0 <= i < |rows| ensures rotate(rows)[i] == rotate([rows[i]])[0] {
        var draw: nat -> nat := n => 0;
        SmallStreamKept(rows, |rows|, draw);
        SmallStreamKept(Map(x => One(rotate, x), rows), |rows|, draw);
        assert rotate(Sampled(rows, |rows|, draw)) == Sampled(Map(x => One(rotate, x), rows), |rows|, draw);
      }
    }
  }

  lemma RowWiseIsMap<T(!new)>(rotate: seq<T> -> seq<T>, rows: seq<T>)
    requires OnePerRow(rotate) && RowWise(rotate)
    ensures rotate(rows) == Map(x => One(rotate, x), rows)
  {
    forall i | 0 <= i < |rows| ensures rotate(rows)[i] == One(rotate, rows[i]) {
      assert rotate(rows)[i] == rotate([rows[i]])[0];
    }
  }

  function Positions(n: nat): (r: seq<int>)
    ensures |r| == n && forall i :: 0 <= i < n ==> r[i] == i
  {
    seq(n, i => i)
  }

  /** Places of arrivals below `n`, no two the same. */
  predicate Picks(r: seq<int>, n: nat) {
    && (forall i, j :: 0 <= i < j < |r| ==> r[i] != r[j])
    && (forall i :: 0 <= i < |r| ==> 0 <= r[i] < n)
  }

  /** Each place holds a different arrival: sampling is without replacement. */
  lemma {:induction false} PlacesDiffer(n: nat, cap: nat, draw: nat -> nat)
    ensures Picks(Sampled(Positions(n), cap, draw), n)
  {
    if n > 0 {
      PlacesDiffer(n - 1, cap, draw);
      assert Positions(n)[..n - 1] == Positions(n - 1);
    }
  }

  /** The sample holds the stream's rows at those places. */
  lemma SampledRows<T>(stream: seq<T>, cap: nat, draw: nat -> nat)
    ensures var picks := Sampled(Positions(|stream|), cap, draw);
            && Picks(picks, |stream|)
            && |Sampled(stream, cap, draw)| == |picks|
            && forall i :: 0 <= i < |picks| ==> Sampled(stream, cap, draw)[i] == stream[picks[i]]
  {
    PlacesDiffer(|stream|, cap, draw);
    if stream != [] {
      var at: int -> T := n => if 0 <= n < |stream| then stream[n] else stream[0];
      DeferredIsEager(Positions(|stream|), cap, draw, at);
      assert Map(at, Positions(|stream|)) == stream;
    }
  }

  // ---------------------------------------------------------------- the build's reservoir

  ghost predicate DrawsBelow(draw: nat -> nat) {
    forall n: nat :: n > 0 ==> draw(n) < n
  }

  class IvfReservoir {
    var sample: seq<nat>
    var count: nat
    var seen: nat
    const dim: nat
    const lists: nat
    const draw: nat -> nat
    /** Every normalised row so far. */
    ghost var stream: seq<Row>

    function Cap(): nat { lists * ROWS_PER_LIST }

    ghost predicate Valid()
      reads this
    {
      && DrawsBelow(draw)
      && seen == |stream|
      && Aligned(sample, dim, count)
      && Records(sample, dim, count) == Sampled(stream, Cap(), draw)
    }

    constructor (dim: nat, lists: nat, draw: nat -> nat)
      requires DrawsBelow(draw)
      ensures Valid() && stream == [] && this.dim == dim && this.lists == lists && this.draw == draw
    {
      this.dim, this.lists, this.draw := dim, lists, draw;
      sample, count, seen := [], 0, 0;
      stream := [];
    }

    /** `ivf_reservoir_push`: append while there is room, else draw a place and overwrite it on a hit. */
    method Push(raw: Row, unit: Row -> Row)
      requires Valid() && |unit(raw)| == dim
      modifies this`sample, this`count, this`seen, this`stream
      ensures Valid() && stream == old(stream) + [unit(raw)]
      ensures count == if |stream| < Cap() then |stream| else Cap()
      ensures forall j, m: nat :: 0 <= j < count && LastAt(m, j, seen, Cap(), draw) ==>
                Record(sample, dim, count, j) == stream[m - 1]
    {
      seen := seen + 1;
      ghost var kept := Records(sample, dim, count);
      if count < Cap() {
        AppendRecord(sample, dim, count, unit(raw));
        sample := sample + unit(raw);
        count := count + 1;
      } else {
        var j := draw(seen);
        if j < Cap() {
          OverwriteRecord(sample, dim, count, j, unit(raw));
          sample := Overwrite(sample, Offset(dim, j), unit(raw));
        }
      }
      assert (stream + [unit(raw)])[..|stream|] == stream;
      stream := stream + [unit(raw)];
      PlacesHoldLast();
    }

    /** Each place of the flat buffer holds the row that last went there. */
    lemma PlacesHoldLast()
      requires Valid()
      ensures forall j, m: nat :: 0 <= j < count && LastAt(m, j, seen, Cap(), draw) ==>
                Record(sample, dim, count, j) == stream[m - 1]
    {
      forall j, m: nat | 0 <= j < count && LastAt(m, j, seen, Cap(), draw)
        ensures Record(sample, dim, count, j) == stream[m - 1]
      {
        PlaceHoldsLast(stream, Cap(), draw, j);
        assert Records(sample, dim, count)[j] == Record(sample, dim, count, j);
      }
    }

    /** The sample handed to training: all stored rows rotated together, once, at the end. */
    method Drain(rotate: seq<Row> -> seq<Row>) returns (rotated: seq<Row>)
      requires Valid()
      ensures rotated == rotate(Sampled(stream, Cap(), draw))
    {
      rotated := rotate(Records(sample, dim, count));
    }
  }

  method SampleTwoRows(unit: Row -> Row, rotate: seq<Row> -> seq<Row>) returns (rotated: seq<Row>)
    requires |unit([0])| == 1
    ensures rotated == rotate([unit([0]), unit([0])])
  {
    var reservoir := new IvfReservoir(1, 1, n => 0);
    ghost var stream := [unit([0]), unit([0])];
    assert [] + [unit([0])] + [unit([0])] == stream;
    hide Sampled, Map, Keep, One, Aligned, Records;
    reservoir.Push([0], unit);
    reservoir.Push([0], unit);
    assert reservoir.stream == stream;
    rotated := reservoir.Drain(rotate);
    SmallStreamKept(stream, reservoir.Cap(), reservoir.draw);
  }

  /** The failing case: a batch rotation whose result for a row shows how many rows it was given with. Two
      rows rotated together at the end are not what they are when each is rotated on arrival. */
  method LateRotationShows() returns (late: seq<Row>, eager: seq<Row>)
    ensures late == [[2], [2]] && eager == [[1], [1]]
  {
    var rotate: seq<Row> -> seq<Row> := rows => seq(|rows|, i => [|rows|]);
    assert rotate([[0]]) == [[1]] && rotate([[0], [0]]) == [[2], [2]];
    late := SampleTwoRows(row => row, rotate);
    eager := SampleTwoRows(row => One(rotate, row), rows => rows);
  }
}
