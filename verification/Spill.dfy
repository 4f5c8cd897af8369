/** The build's spill file: fixed-stride records, an 8-byte little-endian id followed by the vector's
    elements, appended in scan order and read back at any position. */
module Spill {
  import opened Slots

  type Byte = b: nat | b < 256

  const WORD_LIMIT: nat := 0x1_0000_0000
  const ID_LIMIT: nat := 0x1_0000_0000_0000_0000

  /** The bit pattern of one `f32`. */
  type Word = w: nat | w < WORD_LIMIT

  type RowId = i: nat | i < ID_LIMIT

  datatype SpillRow = SpillRow(id: RowId, vector: seq<Word>)

  // ---------------------------------------------------------------- little-endian numbers

  function Pow256(n: nat): nat {
    if n == 0 then 1 else 256 * Pow256(n - 1)
  }

  function ToLe(x: nat, n: nat): (b: seq<Byte>)
    ensures |b| == n
  {
    if n == 0 then [] else [x % 256] + ToLe(x / 256, n - 1)
  }

  function FromLe(b: seq<Byte>): (x: nat)
    ensures x < Pow256(|b|)
  {
    if b == [] then 0 else b[0] + 256 * FromLe(b[1..])
  }

  lemma {:induction false} LeRoundTrip(x: nat, n: nat)
    requires x < Pow256(n)
    ensures FromLe(ToLe(x, n)) == x
  {
    if n > 0 {
      LeRoundTrip(x / 256, n - 1);
      assert ToLe(x, n)[1..] == ToLe(x / 256, n - 1);
    }
  }

  lemma Limits()
    ensures Pow256(4) == WORD_LIMIT && Pow256(8) == ID_LIMIT
  {
    assert Pow256(1) == 256 && Pow256(2) == 256 * 256 && Pow256(3) == 256 * Pow256(2);
    assert Pow256(5) == 256 * Pow256(4) && Pow256(6) == 256 * Pow256(5) && Pow256(7) == 256 * Pow256(6);
  }

  // ---------------------------------------------------------------- records

  function VectorBytes(v: seq<Word>): seq<Byte> {
    if v == [] then [] else VectorBytes(v[..|v| - 1]) + ToLe(v[|v| - 1], 4)
  }

  function WordAt(b: seq<Byte>): (w: Word)
    requires |b| == 4
  {
    Limits();
    FromLe(b)
  }

  function VectorOf(b: seq<Byte>, dim: nat): (v: seq<Word>)
    requires Aligned(b, 4, dim)
    ensures |v| == dim
  {
    seq(dim, i requires 0 <= i < dim => WordAt(Record(b, 4, dim, i)))
  }

  lemma {:induction false} VectorAligned(v: seq<Word>)
    ensures Aligned(VectorBytes(v), 4, |v|)
  {
    if v != [] {
      VectorAligned(v[..|v| - 1]);
      AppendAligned(VectorBytes(v[..|v| - 1]), 4, |v| - 1, ToLe(v[|v| - 1], 4));
    }
  }

  lemma {:induction false} VectorRecord(v: seq<Word>, i: nat)
    requires i < |v| && Aligned(VectorBytes(v), 4, |v|)
    ensures Record(VectorBytes(v), 4, |v|, i) == ToLe(v[i], 4)
  {
    var n := |v| - 1;
    VectorAligned(v[..n]);
    AppendRecordAt(VectorBytes(v[..n]), 4, n, ToLe(v[n], 4), i);
    if i < n { VectorRecord(v[..n], i); }
  }

  lemma VectorRoundTrip(v: seq<Word>)
    ensures Aligned(VectorBytes(v), 4, |v|) && VectorOf(VectorBytes(v), |v|) == v
  {
    VectorAligned(v);
    hide VectorBytes;
    forall i | 0 <= i < |v| ensures VectorOf(VectorBytes(v), |v|)[i] == v[i] {
      VectorRecord(v, i);
      Limits();
      LeRoundTrip(v[i], 4);
    }
  }

  /** `8 + dim * 4`. */
  function Stride(dim: nat): nat {
    8 + Offset(4, dim)
  }

  function RowBytes(r: SpillRow): seq<Byte> {
    ToLe(r.id, 8) + VectorBytes(r.vector)
  }

  function IdAt(b: seq<Byte>): (id: RowId)
    requires |b| == 8
  {
    Limits();
    FromLe(b)
  }

  function RowOf(b: seq<Byte>, dim: nat): SpillRow
    requires |b| == Stride(dim)
  {
    SpillRow(IdAt(b[..8]), VectorOf(b[8..], dim))
  }

  lemma RowRoundTrip(r: SpillRow)
    ensures |RowBytes(r)| == Stride(|r.vector|) && RowOf(RowBytes(r), |r.vector|) == r
  {
    VectorRoundTrip(r.vector);
    Limits();
    LeRoundTrip(r.id, 8);
    assert RowBytes(r)[..8] == ToLe(r.id, 8) && RowBytes(r)[8..] == VectorBytes(r.vector);
  }

  // ---------------------------------------------------------------- the file

  class CorpusSpill {
    var file: seq<Byte>
    const dim: nat
    var rows: nat

    ghost predicate Valid()
      reads this
    {
      Aligned(file, Stride(dim), rows)
    }

    /** The file read as the rows it stores. */
    ghost function Log(): (s: seq<SpillRow>)
      reads this
      requires Valid()
      ensures |s| == rows
    {
      LogOf(file, dim, rows)
    }

    constructor (dim: nat)
      ensures Valid() && Log() == [] && this.dim == dim
    {
      this.dim := dim;
      file, rows := [], 0;
    }

    /** Two writes, the id and then the vector, make one record. */
    method Push(id: RowId, vector: seq<Word>)
      requires Valid() && |vector| == dim
      modifies this
      ensures Valid() && Log() == old(Log()) + [SpillRow(id, vector)]
    {
      LogPush(file, dim, rows, SpillRow(id, vector));
      assert file + RowBytes(SpillRow(id, vector)) == (file + ToLe(id, 8)) + VectorBytes(vector);
      hide Aligned, RowBytes, VectorBytes, LogOf;
      file := file + ToLe(id, 8);
      file := file + VectorBytes(vector);
      rows := rows + 1;
    }

    /** Seeks to record `idx` and reads the id, then `dim` elements. */
    method ReadOne(idx: nat) returns (id: RowId, vector: seq<Word>)
      requires Valid() && idx < rows
      ensures SpillRow(id, vector) == Log()[idx] && |vector| == dim
    {
      RecordBounds(file, dim, rows, idx);
      var at := Offset(Stride(dim), idx);
      id := IdAt(file[at..at + 8]);
      vector := VectorOf(file[at + 8..at + Stride(dim)], dim);
    }

    /** Reads `count` records in a row from record `start`. */
    method ReadBlock(start: nat, count: nat) returns (ids: seq<RowId>, vectors: seq<seq<Word>>)
      requires Valid() && start + count <= rows
      ensures |ids| == |vectors| == count
      ensures forall i :: 0 <= i < count ==> SpillRow(ids[i], vectors[i]) == Log()[start + i] && |vectors[i]| == dim
    {
      ids, vectors := [], [];
      for r := 0 to count
        invariant |ids| == |vectors| == r
        invariant forall i :: 0 <= i < r ==> SpillRow(ids[i], vectors[i]) == Log()[start + i] && |vectors[i]| == dim
      {
        var id, vector := ReadOne(start + r);
        ids, vectors := ids + [id], vectors + [vector];
      }
    }
  }

  function LogOf(file: seq<Byte>, dim: nat, rows: nat): (s: seq<SpillRow>)
    requires Aligned(file, Stride(dim), rows)
    ensures |s| == rows && forall i :: 0 <= i < rows ==> s[i] == RowOf(Record(file, Stride(dim), rows, i), dim)
  {
    seq(rows, i requires 0 <= i < rows => RowOf(Record(file, Stride(dim), rows, i), dim))
  }

  lemma RecordBounds(file: seq<Byte>, dim: nat, rows: nat, idx: nat)
    requires Aligned(file, Stride(dim), rows) && idx < rows
    ensures Offset(Stride(dim), idx) + Stride(dim) <= |file|
    ensures var at := Offset(Stride(dim), idx);
            SpillRow(IdAt(file[at..at + 8]), VectorOf(file[at + 8..at + Stride(dim)], dim))
              == LogOf(file, dim, rows)[idx]
  {
    OffsetMono(Stride(dim), idx, rows);
    var at := Offset(Stride(dim), idx);
    var b := Record(file, Stride(dim), rows, idx);
    assert b[..8] == file[at..at + 8] && b[8..] == file[at + 8..at + Stride(dim)];
  }

  lemma LogPush(file: seq<Byte>, dim: nat, rows: nat, r: SpillRow)
    requires Aligned(file, Stride(dim), rows) && |r.vector| == dim
    ensures Aligned(file + RowBytes(r), Stride(dim), rows + 1)
    ensures LogOf(file + RowBytes(r), dim, rows + 1) == LogOf(file, dim, rows) + [r]
  {
    RowRoundTrip(r);
    AppendAligned(file, Stride(dim), rows, RowBytes(r));
    hide Offset, Aligned, Record, RowBytes, RowOf;
    forall i | 0 <= i < rows + 1
      ensures LogOf(file + RowBytes(r), dim, rows + 1)[i] == (LogOf(file, dim, rows) + [r])[i]
    {
      AppendRecordAt(file, Stride(dim), rows, RowBytes(r), i);
    }
  }

  /** Numbers are stored least byte first. */
  lemma {:induction false} LeastFirst(x: nat, n: nat)
    requires n > 0
    ensures ToLe(x, n)[0] == x % 256
    ensures x < 256 ==> forall i :: 0 < i < n ==> ToLe(x, n)[i] == 0
  {
    if n > 1 && x < 256 {
      LeastFirst(0, n - 1);
      assert x / 256 == 0;
    }
  }
}
