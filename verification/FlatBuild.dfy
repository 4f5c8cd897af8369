/** The flat build stages scanned rows and hands them to the quantizer a chunk at a time. */
module FlatBuild {
  import opened Collections
  import opened Options
  import opened IvfBuild

  class BuildState<Cal(==)> {
    var pendingRows: seq<Vector>
    var pendingIds: seq<nat>
    const idx: Quantizer<Cal>
    const chunkRows: nat
    /** Every row accepted so far, in scan order. */
    ghost var rows: seq<Vector>
    ghost var ids: seq<nat>

    /** Rows already handed over. */
    ghost function Drained(): int
      reads this
    {
      |rows| - |pendingRows|
    }

    ghost predicate Valid()
      reads this, idx
    {
      && idx.Valid() && chunkRows > 0
      && |rows| == |ids| && |pendingRows| == |pendingIds| <= |rows|
      && idx.slotToId + pendingIds == ids
      && rows[Drained()..] == pendingRows
      && (Drained() == 0 ==> idx.cal == None && idx.codes == [])
      && (Drained() > 0 ==> idx.cal == Some(idx.calibrate(FirstChunk(rows, chunkRows)))
                            && idx.codes == EncodeAll(idx.encode, idx.cal.value, rows[..Drained()]))
    }

    /** Before the final flush: less than a chunk staged, and only whole chunks handed over. */
    ghost predicate Scanning()
      reads this
    {
      |pendingRows| < chunkRows && (Drained() == 0 || Drained() >= chunkRows)
    }

    constructor (idx: Quantizer<Cal>, chunkRows: nat)
      requires idx.Valid() && idx.cal == None && idx.slotToId == [] && chunkRows > 0
      ensures Valid() && ids == [] && rows == [] && this.idx == idx && this.chunkRows == chunkRows
    {
      this.idx, this.chunkRows := idx, chunkRows;
      pendingRows, pendingIds := [], [];
      rows, ids := [], [];
    }

    /** One scanned row; a full chunk is handed over at once. */
    method Accept(row: Vector, id: nat) returns (ok: bool)
      requires Valid() && Scanning()
      modifies this, idx
      ensures rows == old(rows) + [row] && ids == old(ids) + [id]
      ensures ok ==> Valid() && Scanning()
      ensures !ok ==> !Distinct(ids)
    {
      assert FirstChunk(rows + [row], chunkRows) == FirstChunk(rows, chunkRows) || Drained() == 0;
      assert (rows + [row])[Drained()..] == pendingRows + [row];
      assert (rows + [row])[..Drained()] == rows[..Drained()];
      rows, ids := rows + [row], ids + [id];
      pendingRows := pendingRows + [row];
      pendingIds := pendingIds + [id];
      ok := true;
      if |pendingIds| >= chunkRows {
        ok := Flush();
      }
    }

    /** End of the scan: it fails exactly when an id repeats, else nothing is lost or reordered. The calibration comes
        from the first chunk, so unlike the cell build it does depend on the chunk size. */
    method Finish() returns (ok: bool)
      requires Valid() && Scanning()
      modifies this, idx
      ensures ok && ids != [] ==>
                && idx.slotToId == ids && idx.cal == Some(idx.calibrate(FirstChunk(rows, chunkRows)))
                && idx.codes == EncodeAll(idx.encode, idx.cal.value, rows)
      ensures ids == old(ids) && rows == old(rows)
      ensures ok <==> Distinct(ids)
    {
      ok := Flush();
      assert rows[..|rows|] == rows;
    }

    /** Hands the staged rows over; fails only when an id repeats. */
    method Flush() returns (ok: bool)
      requires Valid() && |pendingRows| <= chunkRows
      modifies this, idx
      ensures rows == old(rows) && ids == old(ids)
      ensures ok <==> old(pendingIds) == [] || Distinct(ids)
      ensures ok ==> Valid() && pendingRows == []
    {
      if pendingIds == [] {
        return true;
      }
      ghost var before := Drained();
      ok := idx.AddWithIds(pendingRows, pendingIds);
      if ok {
        assert rows[..before] + pendingRows == rows;
        EncodeJoin(idx.encode, idx.cal.value, rows, before, |rows| - before);
        assert rows[..|rows|] == rows;
        pendingRows, pendingIds := [], [];
      }
    }
  }

  function FirstChunk(rows: seq<Vector>, chunkRows: nat): seq<Vector> {
    if chunkRows < |rows| then rows[..chunkRows] else rows
  }
}
