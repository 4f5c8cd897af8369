/** The streamed index build: a block-by-block assignment sweep over the spill, then a cell-order encode
    that re-reads the spill in bounded chunks. What is encoded does not depend on the chunk size; what is
    assigned does not depend on block and chunk size exactly when the batch computation is row-wise. */
module IvfBuild {
  import opened Collections
  import opened Options
  import opened IdMap
  import opened Spill
  import opened Slots

  type Vector = seq<Word>

  const IVF_CALIB_ROWS: nat := 16 * 1024

  function VectorsOf(log: seq<SpillRow>): (r: seq<Vector>)
    ensures |r| == |log| && forall i :: 0 <= i < |log| ==> r[i] == log[i].vector
  {
    seq(|log|, i requires 0 <= i < |log| => log[i].vector)
  }

  // ---------------------------------------------------------------- the quantizer

  function EncodeAll<Cal>(encode: (Cal, Vector) -> Code, cal: Cal, rows: seq<Vector>): (r: seq<Code>)
    ensures |r| == |rows| && forall i :: 0 <= i < |rows| ==> r[i] == encode(cal, rows[i])
  {
    seq(|rows|, i requires 0 <= i < |rows| => encode(cal, rows[i]))
  }

  /** `IdMapIndex` while it is being built. The first batch it is given fixes its calibration for good. */
  class Quantizer<Cal(==)> {
    var cal: Option<Cal>
    var codes: seq<Code>
    var slotToId: seq<nat>
    const calibrate: seq<Vector> -> Cal
    const encode: (Cal, Vector) -> Code

    ghost predicate Valid()
      reads this
    {
      |codes| == |slotToId| && Distinct(slotToId) && (cal.None? ==> codes == [])
    }

    constructor (calibrate: seq<Vector> -> Cal, encode: (Cal, Vector) -> Code)
      ensures Valid() && cal == None && codes == [] && slotToId == []
      ensures this.calibrate == calibrate && this.encode == encode
    {
      this.calibrate, this.encode := calibrate, encode;
      cal, codes, slotToId := None, [], [];
    }

    ghost predicate Fits(ids: seq<nat>)
      reads this
    {
      Distinct(slotToId + ids)
    }

    /** `add_with_ids`: refused as a whole when an id repeats. */
    method AddWithIds(rows: seq<Vector>, ids: seq<nat>) returns (ok: bool)
      requires Valid() && |rows| == |ids| && rows != []
      modifies this
      ensures Valid()
      ensures ok <==> old(Fits(ids))
      ensures !ok ==> cal == old(cal) && codes == old(codes) && slotToId == old(slotToId)
      ensures ok ==> cal == (if old(cal).None? then Some(calibrate(rows)) else old(cal))
      ensures ok ==> slotToId == old(slotToId) + ids && codes == old(codes) + EncodeAll(encode, cal.value, rows)
    {
      ok := NoneRepeated(slotToId + ids);
      if ok {
        if cal.None? {
          cal := Some(calibrate(rows));
        }
        codes := codes + EncodeAll(encode, cal.value, rows);
        slotToId := slotToId + ids;
      }
    }
  }

  method NoneRepeated(ids: seq<nat>) returns (ok: bool)
    ensures ok <==> Distinct(ids)
  {
    var seen: set<nat> := {};
    for i := 0 to |ids|
      invariant forall x :: x in seen <==> exists j :: 0 <= j < i && ids[j] == x
      invariant Distinct(ids[..i])
    {
      if ids[i] in seen {
        var j :| 0 <= j < i && ids[j] == ids[i];
        return false;
      }
      seen := seen + {ids[i]};
    }
    assert ids[..|ids|] == ids;
    ok := true;
  }

  // ---------------------------------------------------------------- encoding in cell order

  predicate Reads(permutation: seq<nat>, log: seq<SpillRow>) {
    forall s :: 0 <= s < |permutation| ==> permutation[s] < |log|
  }

  /** The rows of the spill in slot order. */
  function Permuted(log: seq<SpillRow>, permutation: seq<nat>): (r: seq<SpillRow>)
    requires Reads(permutation, log)
    ensures |r| == |permutation| && forall s :: 0 <= s < |permutation| ==> r[s] == log[permutation[s]]
  {
    seq(|permutation|, s requires 0 <= s < |permutation| => log[permutation[s]])
  }

  function IdsOf(rows: seq<SpillRow>): (r: seq<RowId>)
    ensures |r| == |rows| && forall i :: 0 <= i < |rows| ==> r[i] == rows[i].id
  {
    seq(|rows|, i requires 0 <= i < |rows| => rows[i].id)
  }

  function Count(lo: nat, n: nat): (r: seq<nat>)
    ensures |r| == n && forall i :: 0 <= i < n ==> r[i] == lo + i
  {
    seq(n, i => lo + i)
  }

  lemma CountJoin(n: nat, m: nat)
    ensures Count(0, n) + Count(n, m) == Count(0, n + m) && Distinct(Count(0, n + m))
  {
  }

  function CalibRows(slots: nat): (r: nat)
    ensures r <= slots && r <= IVF_CALIB_ROWS
    ensures r == slots || r == IVF_CALIB_ROWS
    ensures slots > 0 ==> r > 0
  {
    if IVF_CALIB_ROWS < slots then IVF_CALIB_ROWS else slots
  }

  /** What the finished quantizer holds: a function of the rows in slot order alone. */
  ghost predicate Encoded<Cal>(q: Quantizer<Cal>, rows: seq<Vector>, n: nat)
    reads q
    requires n <= |rows|
  {
    && q.slotToId == Count(0, n)
    && (n == 0 ==> q.cal == None && q.codes == [])
    && (n > 0 ==>
          && q.cal == Some(q.calibrate(rows[..CalibRows(|rows|)]))
          && q.codes == EncodeAll(q.encode, q.cal.value, rows[..n]))
  }

  lemma EncodeJoin<Cal>(encode: (Cal, Vector) -> Code, cal: Cal, rows: seq<Vector>, n: nat, m: nat)
    requires n + m <= |rows|
    ensures EncodeAll(encode, cal, rows[..n]) + EncodeAll(encode, cal, rows[n..n + m])
              == EncodeAll(encode, cal, rows[..n + m])
  {
  }

  method ReadPermuted(spill: CorpusSpill, permutation: seq<nat>, slot: nat, count: nat)
    returns (rows: seq<Vector>, ids: seq<RowId>)
    requires spill.Valid() && Reads(permutation, spill.Log()) && slot + count <= |permutation|
    ensures rows == VectorsOf(Permuted(spill.Log(), permutation))[slot..slot + count]
    ensures ids == IdsOf(Permuted(spill.Log(), permutation))[slot..slot + count]
  {
    rows, ids := [], [];
    ghost var read := Permuted(spill.Log(), permutation);
    for r := 0 to count
      invariant |rows| == |ids| == r
      invariant forall i :: 0 <= i < r ==> SpillRow(ids[i], rows[i]) == read[slot + i]
    {
      var id, vector := spill.ReadOne(permutation[slot + r]);
      rows, ids := rows + [vector], ids + [id];
    }
  }

  /** The encode loop. Slot `s` receives record `permutation[s]` with its real id; the calibration batch is
      the fixed prefix; so codes, ids and calibration are the same for every chunk size. */
  method EncodeInCellOrder<Cal(==)>(spill: CorpusSpill, permutation: seq<nat>, q: Quantizer<Cal>, chunkRows: nat)
    returns (permIds: seq<RowId>)
    requires spill.Valid() && Reads(permutation, spill.Log()) && chunkRows > 0
    requires q.Valid() && q.cal == None && q.slotToId == []
    modifies q
    ensures permIds == IdsOf(Permuted(spill.Log(), permutation))
    ensures q.Valid() && Encoded(q, VectorsOf(Permuted(spill.Log(), permutation)), |permutation|)
  {
    var n := |permutation|;
    ghost var rows := VectorsOf(Permuted(spill.Log(), permutation));
    permIds := [];
    var slot := 0;
    while slot < n
      invariant slot <= n && q.Valid() && spill.Valid() && Reads(permutation, spill.Log())
      invariant rows == VectorsOf(Permuted(spill.Log(), permutation))
      invariant permIds == IdsOf(Permuted(spill.Log(), permutation))[..slot]
      invariant Encoded(q, rows, slot)
    {
      var want := if slot == 0 then CalibRows(n) else chunkRows;
      var count := if n - slot < want then n - slot else want;
      var chunk, ids := ReadPermuted(spill, permutation, slot, count);
      CountJoin(slot, count);
      var ok := AddChunk(q, rows, slot, count, chunk);
      permIds := permIds + ids;
      slot := slot + count;
    }
    assert rows[..n] == rows;
  }

  /** Feeds one chunk under the slot numbers as ids; they are new, so it is never refused. */
  method AddChunk<Cal(==)>(q: Quantizer<Cal>, ghost rows: seq<Vector>, slot: nat, count: nat, chunk: seq<Vector>)
    returns (ok: bool)
    requires q.Valid() && slot + count <= |rows| && count > 0 && chunk == rows[slot..slot + count]
    requires Encoded(q, rows, slot) && (slot == 0 ==> count == CalibRows(|rows|))
    modifies q
    ensures ok && q.Valid() && Encoded(q, rows, slot + count)
  {
    CountJoin(slot, count);
    ok := q.AddWithIds(chunk, Count(slot, count));
    EncodeJoin(q.encode, q.cal.value, rows, slot, count);
    assert rows[..0] == [];
  }

  // ---------------------------------------------------------------- the assignment sweep

  /** Finds the cells of a batch of rows: normalise, rotate and compare with the centroids. */
  type Assign = seq<Vector> -> seq<seq<nat>>

  /** The rows in work chunks of the given size, assigned separately and joined in row order. */
  function InChunks(assign: Assign, rows: seq<Vector>, size: nat): seq<seq<nat>>
    requires size > 0
  {
    if rows == [] then [] else
      var n := if size < |rows| then size else |rows|;
      assign(rows[..n]) + InChunks(assign, rows[n..], size)
  }

  /** The rows block after block, each block in work chunks. */
  function InBlocks(assign: Assign, rows: seq<Vector>, blockRows: nat, parChunkRows: nat): seq<seq<nat>>
    requires blockRows > 0 && parChunkRows > 0
  {
    if rows == [] then [] else
      var n := if blockRows < |rows| then blockRows else |rows|;
      InChunks(assign, rows[..n], parChunkRows) + InBlocks(assign, rows[n..], blockRows, parChunkRows)
  }

  /** Adding the rows up in order, one after the other. */
  function Sum<S>(add: (S, Vector) -> S, zero: S, rows: seq<Vector>): S {
    if rows == [] then zero else add(Sum(add, zero, rows[..|rows| - 1]), rows[|rows| - 1])
  }

  lemma {:induction false} SumJoin<S>(add: (S, Vector) -> S, zero: S, a: seq<Vector>, b: seq<Vector>)
    ensures Sum(add, Sum(add, zero, a), b) == Sum(add, zero, a + b)
  {
    if b == [] {
      assert a + b == a;
    } else {
      SumJoin(add, zero, a, b[..|b| - 1]);
      assert (a + b)[..|a + b| - 1] == a + b[..|b| - 1];
    }
  }

  /** The first `n` rows are done: what is there and the chunks of the rest make all of it. */
  ghost predicate Chunked(assign: Assign, rows: seq<Vector>, n: nat, size: nat, out: seq<seq<nat>>)
    requires size > 0
  {
    n <= |rows| && out + InChunks(assign, rows[n..], size) == InChunks(assign, rows, size)
  }

  lemma ChunkedMore(assign: Assign, rows: seq<Vector>, n: nat, size: nat, out: seq<seq<nat>>)
    requires size > 0 && n < |rows| && Chunked(assign, rows, n, size, out)
    ensures var count := if size < |rows| - n then size else |rows| - n;
            Chunked(assign, rows, n + count, size, out + assign(rows[n..n + count]))
  {
    var count := if size < |rows| - n then size else |rows| - n;
    var rest := rows[n..];
    assert rest[count..] == rows[n + count..] && rest[..count] == rows[n..n + count];
    var first, last := assign(rest[..count]), InChunks(assign, rest[count..], size);
    assert InChunks(assign, rest, size) == first + last;
    hide InChunks;
    assert out + (first + last) == (out + first) + last;
  }

  lemma ChunkedEnds(assign: Assign, rows: seq<Vector>, size: nat)
    requires size > 0
    ensures Chunked(assign, rows, 0, size, [])
    ensures forall out :: Chunked(assign, rows, |rows|, size, out) ==> out == InChunks(assign, rows, size)
  {
    assert rows[0..] == rows && rows[|rows|..] == [];
    assert InChunks(assign, [], size) == [];
    hide InChunks;
  }

  /** One block, split into work chunks that are assigned separately and joined in row order. */
  method AssignBlock(block: seq<Vector>, assign: Assign, parChunkRows: nat) returns (out: seq<seq<nat>>)
    requires parChunkRows > 0
    ensures out == InChunks(assign, block, parChunkRows)
  {
    out := [];
    var start := 0;
    ChunkedEnds(assign, block, parChunkRows);
    hide *;
    while start < |block|
      invariant start <= |block| && Chunked(assign, block, start, parChunkRows, out)
    {
      ChunkedMore(assign, block, start, parChunkRows, out);
      var count := if parChunkRows < |block| - start then parChunkRows else |block| - start;
      out := out + assign(block[start..start + count]);
      start := start + count;
    }
  }

  method SumBlock<S>(add: (S, Vector) -> S, sums: S, block: seq<Vector>) returns (out: S)
    ensures out == Sum(add, sums, block)
  {
    out := sums;
    for i := 0 to |block|
      invariant out == Sum(add, sums, block[..i])
    {
      assert block[..i + 1][..i] == block[..i];
      out := add(out, block[i]);
    }
    assert block[..|block|] == block;
  }

  /** The sweep over the spill in row blocks: every row's cells, block by block and chunk by chunk, and the
      running sums in spill order. The sums are what one pass over the whole corpus would give, for every
      block size and with no law asked of `add`; the cells are, exactly when assigning is row-wise. */
  method SweepSpill<S>(spill: CorpusSpill, assign: Assign, add: (S, Vector) -> S, zero: S, blockRows: nat,
      parChunkRows: nat)
    returns (assignments: seq<seq<nat>>, sums: S)
    requires spill.Valid() && blockRows > 0 && parChunkRows > 0
    ensures assignments == InBlocks(assign, VectorsOf(spill.Log()), blockRows, parChunkRows)
    ensures sums == Sum(add, zero, VectorsOf(spill.Log()))
  {
    hide *;
    ghost var all := VectorsOf(spill.Log());
    assignments, sums := [], zero;
    var start := 0;
    SweptNone(all, assign, add, zero, blockRows, parChunkRows);
    while start < spill.rows
      invariant start <= spill.rows == |all|
      invariant Swept(all, start, assign, add, zero, blockRows, parChunkRows, assignments, sums)
    {
      var count := if blockRows < spill.rows - start then blockRows else spill.rows - start;
      assignments, sums :=
        SweepBlock(spill, all, start, count, assign, add, zero, blockRows, parChunkRows, assignments, sums);
      start := start + count;
    }
    SweptAll(all, assign, add, zero, blockRows, parChunkRows, assignments, sums);
  }

  /** One block of the sweep. */
  method SweepBlock<S>(spill: CorpusSpill, ghost all: seq<Vector>, start: nat, count: nat, assign: Assign,
      add: (S, Vector) -> S, ghost zero: S, ghost blockRows: nat, parChunkRows: nat, cells: seq<seq<nat>>, sums: S)
    returns (cells': seq<seq<nat>>, sums': S)
    requires spill.Valid() && all == VectorsOf(spill.Log()) && blockRows > 0 && parChunkRows > 0
    requires start < |all| == spill.rows && count == if blockRows < |all| - start then blockRows else |all| - start
    requires Swept(all, start, assign, add, zero, blockRows, parChunkRows, cells, sums)
    ensures Swept(all, start + count, assign, add, zero, blockRows, parChunkRows, cells', sums')
  {
    hide *;
    var block := ReadVectors(spill, start, count);
    SweptMore(all, start, block, assign, add, zero, blockRows, parChunkRows, cells, sums);
    sums' := SumBlock(add, sums, block);
    var more := AssignBlock(block, assign, parChunkRows);
    cells' := cells + more;
  }

  method ReadVectors(spill: CorpusSpill, start: nat, count: nat) returns (block: seq<Vector>)
    requires spill.Valid() && start + count <= spill.rows
    ensures block == VectorsOf(spill.Log())[start..start + count]
  {
    var ids;
    ids, block := spill.ReadBlock(start, count);
  }

  /** The first `n` rows are done: what is there and the sweep of the rest make the whole sweep. */
  ghost predicate Swept<S>(all: seq<Vector>, n: nat, assign: Assign, add: (S, Vector) -> S, zero: S,
      blockRows: nat, parChunkRows: nat, assignments: seq<seq<nat>>, sums: S)
    requires blockRows > 0 && parChunkRows > 0
  {
    && n <= |all| && sums == Sum(add, zero, all[..n])
    && assignments + InBlocks(assign, all[n..], blockRows, parChunkRows)
         == InBlocks(assign, all, blockRows, parChunkRows)
  }

  lemma SweptNone<S>(all: seq<Vector>, assign: Assign, add: (S, Vector) -> S, zero: S, blockRows: nat,
      parChunkRows: nat)
    requires blockRows > 0 && parChunkRows > 0
    ensures Swept(all, 0, assign, add, zero, blockRows, parChunkRows, [], zero)
  {
    assert all[0..] == all;
  }

  lemma BlocksMore(all: seq<Vector>, n: nat, block: seq<Vector>, assign: Assign, blockRows: nat, parChunkRows: nat)
    requires blockRows > 0 && parChunkRows > 0 && n < |all|
    requires |block| == (if blockRows < |all| - n then blockRows else |all| - n) && block == all[n..n + |block|]
    ensures InBlocks(assign, all[n..], blockRows, parChunkRows)
              == InChunks(assign, block, parChunkRows)
                   + InBlocks(assign, all[n + |block|..], blockRows, parChunkRows)
  {
    var rest := all[n..];
    assert rest[..|block|] == block && rest[|block|..] == all[n + |block|..];
    hide InChunks;
  }

  lemma SweptMore<S>(all: seq<Vector>, n: nat, block: seq<Vector>, assign: Assign, add: (S, Vector) -> S, zero: S,
      blockRows: nat, parChunkRows: nat, cells: seq<seq<nat>>, sums: S)
    requires blockRows > 0 && parChunkRows > 0 && n < |all|
    requires |block| == (if blockRows < |all| - n then blockRows else |all| - n) && block == all[n..n + |block|]
    requires Swept(all, n, assign, add, zero, blockRows, parChunkRows, cells, sums)
    ensures Swept(all, n + |block|, assign, add, zero, blockRows, parChunkRows,
                  cells + InChunks(assign, block, parChunkRows), Sum(add, sums, block))
  {
    hide InBlocks, InChunks, Sum;
    BlocksMore(all, n, block, assign, blockRows, parChunkRows);
    SumJoin(add, zero, all[..n], block);
    assert all[..n] + block == all[..n + |block|];
    Regroup(cells, InChunks(assign, block, parChunkRows),
      InBlocks(assign, all[n + |block|..], blockRows, parChunkRows));
  }

  lemma Regroup<T>(a: seq<T>, b: seq<T>, c: seq<T>)
    ensures a + (b + c) == (a + b) + c
  {
  }

  lemma SweptAll<S>(all: seq<Vector>, assign: Assign, add: (S, Vector) -> S, zero: S, blockRows: nat,
      parChunkRows: nat, assignments: seq<seq<nat>>, sums: S)
    requires blockRows > 0 && parChunkRows > 0
    requires Swept(all, |all|, assign, add, zero, blockRows, parChunkRows, assignments, sums)
    ensures assignments == InBlocks(assign, all, blockRows, parChunkRows) && sums == Sum(add, zero, all)
  {
    assert all[..|all|] == all;
  }

  // ---------------------------------------------------------------- block and chunk sizes

  lemma {:induction false} ChunksOfOne(assign: Assign, rows: seq<Vector>)
    requires OnePerRow(assign)
    ensures |InChunks(assign, rows, 1)| == |rows|
    ensures forall i :: 0 <= i < |rows| ==> InChunks(assign, rows, 1)[i] == assign([rows[i]])[0]
  {
    if rows != [] {
      ChunksOfOne(assign, rows[1..]);
      assert rows[..1] == [rows[0]];
    }
  }

  lemma RowWiseJoin(assign: Assign, rows: seq<Vector>, n: nat)
    requires OnePerRow(assign) && RowWise(assign) && n <= |rows|
    ensures assign(rows[..n]) + assign(rows[n..]) == assign(rows)
  {
    var a, b := rows[..n], rows[n..];
    forall i | 0 <= i < |rows| ensures (assign(a) + assign(b))[i] == assign(rows)[i] {
      assert assign(rows)[i] == assign([rows[i]])[0];
      if i < n {
        assert assign(a)[i] == assign([a[i]])[0];
      } else {
        assert assign(b)[i - n] == assign([b[i - n]])[0];
      }
    }
  }

  lemma {:induction false} RowWiseChunks(assign: Assign, rows: seq<Vector>, size: nat)
    requires OnePerRow(assign) && RowWise(assign) && size > 0
    ensures InChunks(assign, rows, size) == assign(rows)
  {
    if rows == [] {
      assert |assign(rows)| == 0;
    } else {
      var n := if size < |rows| then size else |rows|;
      RowWiseChunks(assign, rows[n..], size);
      RowWiseJoin(assign, rows, n);
    }
  }

  lemma {:induction false} RowWiseBlocks(assign: Assign, rows: seq<Vector>, blockRows: nat, parChunkRows: nat)
    requires OnePerRow(assign) && RowWise(assign) && blockRows > 0 && parChunkRows > 0
    ensures InBlocks(assign, rows, blockRows, parChunkRows) == assign(rows)
  {
    if rows == [] {
      assert |assign(rows)| == 0;
    } else {
      var n := if blockRows < |rows| then blockRows else |rows|;
      RowWiseChunks(assign, rows[..n], parChunkRows);
      RowWiseBlocks(assign, rows[n..], blockRows, parChunkRows);
      RowWiseJoin(assign, rows, n);
    }
  }

  /** For every corpus and every block and chunk size the sweep gives what one call over the whole would. */
  ghost predicate SizesInvisible(assign: Assign) {
    forall rows, blockRows: nat, parChunkRows: nat :: blockRows > 0 && parChunkRows > 0 ==>
      InBlocks(assign, rows, blockRows, parChunkRows) == assign(rows)
  }

  lemma InvisibleIsRowWise(assign: Assign, rows: seq<Vector>, i: nat)
    requires OnePerRow(assign) && SizesInvisible(assign) && i < |rows|
    ensures assign(rows)[i] == assign([rows[i]])[0]
  {
    OneBlock(assign, rows, 1);
    ChunksOfOne(assign, rows);
    hide InChunks;
  }

  /** Block and chunk sizes do not show exactly when the cells of a row do not depend on the rows it is
      batched with. */
  lemma SizesInvisibleIff(assign: Assign)
    requires OnePerRow(assign)
    ensures SizesInvisible(assign) <==> RowWise(assign)
  {
    if RowWise(assign) {
      forall rows, blockRows: nat, parChunkRows: nat | blockRows > 0 && parChunkRows > 0
        ensures InBlocks(assign, rows, blockRows, parChunkRows) == assign(rows)
      {
        RowWiseBlocks(assign, rows, blockRows, parChunkRows);
      }
    }
    if SizesInvisible(assign) {
      forall rows: seq<Vector>, i | 0 <= i < |rows| ensures assign(rows)[i] == assign([rows[i]])[0] {
        InvisibleIsRowWise(assign, rows, i);
      }
    }
  }

  lemma OneBlock(assign: Assign, rows: seq<Vector>, parChunkRows: nat)
    requires rows != [] && parChunkRows > 0
    ensures InBlocks(assign, rows, |rows|, parChunkRows) == InChunks(assign, rows, parChunkRows)
  {
    assert rows[..|rows|] == rows && rows[|rows|..] == [];
    assert InBlocks(assign, [], |rows|, parChunkRows) == [];
  }

  method SweepTwoRows(assign: Assign, parChunkRows: nat) returns (cells: seq<seq<nat>>)
    requires parChunkRows > 0
    ensures cells == InBlocks(assign, [[0], [0]], 2, parChunkRows)
  {
    var spill := new CorpusSpill(1);
    spill.Push(7, [0]);
    spill.Push(8, [0]);
    assert spill.Log() == [SpillRow(7, [0]), SpillRow(8, [0])];
    assert VectorsOf(spill.Log()) == [[0], [0]];
    hide InBlocks, Sum;
    var sums;
    cells, sums := SweepSpill(spill, assign, (n: int, x) => n, 0, 2, parChunkRows);
  }

  /** The failing case: a batch computation whose answer for a row shows how many rows it was given with,
      swept over two rows in chunks of one and of two. */
  method ChunkSizeShows() returns (small: seq<seq<nat>>, large: seq<seq<nat>>)
    ensures small == [[1], [1]] && large == [[2], [2]]
  {
    var assign: Assign := rows => seq(|rows|, i => [|rows|]);
    TwoChunks(assign);
    assert assign([[0]]) == [[1]] && assign([[0], [0]]) == [[2], [2]];
    hide *;
    small := SweepTwoRows(assign, 1);
    large := SweepTwoRows(assign, 2);
  }

  lemma TwoChunks(assign: Assign)
    ensures InBlocks(assign, [[0], [0]], 2, 1) == assign([[0]]) + assign([[0]])
    ensures InBlocks(assign, [[0], [0]], 2, 2) == assign([[0], [0]])
  {
    var rows: seq<Vector> := [[0], [0]];
    OneBlock(assign, rows, 1);
    OneBlock(assign, rows, 2);
    assert rows[..1] == [[0]] && rows[1..] == [[0]] && rows[..2] == rows && rows[2..] == [];
    var last: seq<Vector> := [[0]];
    assert last[..1] == last && last[1..] == [];
  }

  // ---------------------------------------------------------------- one-bit codes in cell order

  function PackAll(pack: Vector -> seq<bv8>, rows: seq<Vector>): (r: seq<seq<bv8>>)
    ensures |r| == |rows| && forall i :: 0 <= i < |rows| ==> r[i] == pack(rows[i])
  {
    seq(|rows|, i requires 0 <= i < |rows| => pack(rows[i]))
  }

  lemma PackPush(pack: Vector -> seq<bv8>, rows: seq<Vector>, n: nat, codes: seq<bv8>, stride: nat)
    requires n < |rows| && Aligned(codes, stride, n) && Records(codes, stride, n) == PackAll(pack, rows[..n])
    requires |pack(rows[n])| == stride
    ensures Aligned(codes + pack(rows[n]), stride, n + 1)
    ensures Records(codes + pack(rows[n]), stride, n + 1) == PackAll(pack, rows[..n + 1])
  {
    AppendRecord(codes, stride, n, pack(rows[n]));
    hide Aligned, Records;
    assert PackAll(pack, rows[..n + 1]) == PackAll(pack, rows[..n]) + [pack(rows[n])];
  }

  method PackChunk(pack: Vector -> seq<bv8>, ghost rows: seq<Vector>, slot: nat, count: nat, chunk: seq<Vector>,
      codes0: seq<bv8>, stride: nat)
    returns (codes: seq<bv8>)
    requires slot + count <= |rows| && chunk == rows[slot..slot + count] && forall v :: |pack(v)| == stride
    requires Aligned(codes0, stride, slot) && Records(codes0, stride, slot) == PackAll(pack, rows[..slot])
    ensures Aligned(codes, stride, slot + count)
            && Records(codes, stride, slot + count) == PackAll(pack, rows[..slot + count])
  {
    hide Aligned, Records, PackAll;
    codes := codes0;
    for r := 0 to count
      invariant Aligned(codes, stride, slot + r) && Records(codes, stride, slot + r) == PackAll(pack, rows[..slot + r])
    {
      PackPush(pack, rows, slot + r, codes, stride);
      codes := codes + pack(chunk[r]);
    }
  }

  /** The 1-bit build has no calibration: one fixed-stride code per slot, row by row, for every chunk size. */
  method PackInCellOrder(spill: CorpusSpill, permutation: seq<nat>, pack: Vector -> seq<bv8>, stride: nat,
      chunkRows: nat)
    returns (codes: seq<bv8>, permIds: seq<RowId>)
    requires spill.Valid() && Reads(permutation, spill.Log()) && chunkRows > 0
    requires forall v :: |pack(v)| == stride
    ensures permIds == IdsOf(Permuted(spill.Log(), permutation))
    ensures Aligned(codes, stride, |permutation|)
    ensures Records(codes, stride, |permutation|) == PackAll(pack, VectorsOf(Permuted(spill.Log(), permutation)))
  {
    var n := |permutation|;
    ghost var rows := VectorsOf(Permuted(spill.Log(), permutation));
    codes, permIds := [], [];
    var slot := 0;
    assert Records(codes, stride, 0) == PackAll(pack, rows[..0]);
    while slot < n
      invariant slot <= n && permIds == IdsOf(Permuted(spill.Log(), permutation))[..slot]
      invariant Aligned(codes, stride, slot) && Records(codes, stride, slot) == PackAll(pack, rows[..slot])
    {
      var count := if n - slot < chunkRows then n - slot else chunkRows;
      var chunk, ids := ReadPermuted(spill, permutation, slot, count);
      codes := PackChunk(pack, rows, slot, count, chunk, codes, stride);
      permIds := permIds + ids;
      slot := slot + count;
    }
    assert rows[..n] == rows;
  }
}
