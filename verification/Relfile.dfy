/** One index's relfile: the slot table, its tombstone bitmap and its version, and the three
    things that rewrite it: the deferred flush, VACUUM and REINDEX. */
module Relfile {
  import opened Collections
  import opened Options
  import opened IdMap
  import opened Reconcile
  import Bitmap

  const U32_MAX: nat := 0xFFFF_FFFF

  datatype Shape = Shape(bitWidth: nat, dim: nat)

  /** What a reader finds on disk. `lists > 0` marks an IVF index and `cellRows` the number of
      leading slots its cell directory partitions (0 once the layout has been dropped). */
  datatype Image = Image(node: nat, version: nat, shape: Shape, lists: nat, cellRows: nat, rows: seq<Row>,
    dead: seq<bv8>)

  /** The id has a slot and the slot is not tombstoned. */
  predicate Alive(img: Image, id: Id) {
    Has(img.rows, id) && !Bitmap.IsSet(img.dead, SlotOf(img.rows, id))
  }

  /** The vectors a scan may return. */
  function Live(img: Image): (m: map<Id, Code>)
    ensures forall id: Id :: id in m <==> Alive(img, id)
    ensures forall id: Id :: id in m ==> SlotOf(img.rows, id) >= 0 && m[id] == img.rows[SlotOf(img.rows, id)].code
  {
    var all := ToMap(img.rows);
    map id | id in all && Alive(img, id) :: all[id]
  }

  ghost predicate Sound(img: Image) {
    && Unique(img.rows)
    && Bitmap.PaddingClear(img.dead, |img.rows|)
    && img.cellRows <= |img.rows|
  }

  /** A real heap TID never encodes to 0. */
  predicate NonzeroIds(rows: seq<Row>) {
    forall i :: 0 <= i < |rows| ==> rows[i].id != 0
  }

  // ---------------------------------------------------------------- versions

  /** The version a rewrite stamps, in saturating 32-bit arithmetic. */
  function NextAmVersion(onDisk: Option<nat>, proposed: nat): (v: nat)
    ensures v >= proposed
  {
    match onDisk
    case Some(d) =>
      var above := if d >= U32_MAX then U32_MAX else d + 1;
      if proposed >= above then proposed else above
    case None => proposed
  }

  /** A flush always advances the version, except that a saturated counter stays where it is. */
  lemma VersionAdvancesIff(onDisk: nat, proposed: nat)
    requires onDisk <= U32_MAX && proposed <= U32_MAX
    ensures NextAmVersion(Some(onDisk), proposed) > onDisk <==> onDisk < U32_MAX
    ensures NextAmVersion(Some(onDisk), proposed) <= U32_MAX
  {
  }

  /** Not below what the writer proposes, and past what is on disk unless the counter is used up. */
  predicate MayStamp(onDisk: Option<nat>, proposed: nat, v: nat) {
    v >= proposed && (onDisk.Some? ==> v > onDisk.value || v >= U32_MAX)
  }

  /** The version stamped is the least one allowed: no rewrite skips versions. */
  lemma StampsLeast(onDisk: Option<nat>, proposed: nat, v: nat)
    ensures v == NextAmVersion(onDisk, proposed) <==>
            MayStamp(onDisk, proposed, v) && forall w: nat :: MayStamp(onDisk, proposed, w) ==> v <= w
  {
    assert MayStamp(onDisk, proposed, NextAmVersion(onDisk, proposed));
    if MayStamp(onDisk, proposed, v) && forall w: nat :: MayStamp(onDisk, proposed, w) ==> v <= w {
      assert v <= NextAmVersion(onDisk, proposed);
    }
  }

  // ---------------------------------------------------------------- flush

  /** `first_duplicate_id`: the id of the first slot whose id already appeared. */
  method FirstDuplicateId(ids: seq<Id>) returns (dup: Option<Id>)
    ensures dup.None? <==> Distinct(ids)
    ensures dup.Some? ==> exists i, j :: 0 <= i < j < |ids| && ids[i] == ids[j] == dup.value && Distinct(ids[..j])
  {
    var seen: set<Id> := {};
    for j := 0 to |ids|
      invariant Distinct(ids[..j])
      invariant forall id: Id :: id in seen <==> id in ids[..j]
    {
      if ids[j] in seen {
        assert ids[j] in ids[..j];
        var i :| 0 <= i < j && ids[..j][i] == ids[j];
        return Some(ids[j]);
      }
      seen := seen + {ids[j]};
      assert ids[..j + 1] == ids[..j] + [ids[j]];
    }
    assert ids[..|ids|] == ids;
    dup := None;
  }

  /** The snapshot rows a transaction touched, in snapshot order. */
  function TouchedRows(snap: seq<Row>, touched: seq<Id>): (r: seq<Row>)
  {
    if snap == [] then [] else
      var rest := TouchedRows(snap[..|snap| - 1], touched);
      var last := snap[|snap| - 1];
      if last.id in touched then rest + [last] else rest
  }

  /** The rows a flush writes. Empty disk means a VACUUM may have emptied it, so even then only touched rows land. */
  function FlushRows(disk: seq<Row>, snap: seq<Row>, touched: seq<Id>): (r: seq<Row>)
    ensures |disk| <= |r| && forall i :: 0 <= i < |disk| ==> r[i].id == disk[i].id
  {
    if disk != [] then ReconcileRows(disk, snap, touched) else TouchedRows(snap, touched)
  }

  /** Clears the bit of every slot whose id was written back. */
  function UnmarkTouched(bm: seq<bv8>, ids: seq<Id>, touched: seq<Id>): (r: seq<bv8>)
    ensures |r| == |bm|
    ensures forall t: nat :: Bitmap.IsSet(r, t) <==> (Bitmap.IsSet(bm, t) && !(t < |ids| && ids[t] in touched))
  {
    if ids == [] then bm else
      var rest := UnmarkTouched(bm, ids[..|ids| - 1], touched);
      if ids[|ids| - 1] in touched then Bitmap.Unmark(rest, |ids| - 1) else rest
  }

  /** The tombstone bitmap carried through a flush. */
  function CarryDead(dead: seq<bv8>, nBefore: nat, ids: seq<Id>, touched: seq<Id>): (r: seq<bv8>)
    requires nBefore <= |ids|
  {
    if Bitmap.AllZero(dead) then []
    else UnmarkTouched(Bitmap.Resize(dead, Bitmap.BytesFor(|ids|)), ids[..nBefore], touched)
  }

  method CarryTombstones(dead: seq<bv8>, nBefore: nat, ids: seq<Id>, touched: seq<Id>) returns (t: seq<bv8>)
    requires nBefore <= |ids|
    ensures t == CarryDead(dead, nBefore, ids, touched)
  {
    if Bitmap.AllZero(dead) {
      return [];
    }
    t := Bitmap.Resize(dead, Bitmap.BytesFor(|ids|));
    ghost var start := t;
    for slot := 0 to nBefore
      invariant t == UnmarkTouched(start, ids[..slot], touched)
    {
      assert ids[..slot + 1][..slot] == ids[..slot];
      if ids[slot] in touched {
        t := Bitmap.Unmark(t, slot);
      }
    }
  }

  /** Is the append region past the cells still small enough to sweep on every scan? */
  predicate DeltaWithinBound(cellRows: nat, totalRows: nat, maxPct: int) {
    maxPct > 0 && cellRows > 0 && totalRows >= cellRows && (totalRows - cellRows) * 100 <= cellRows * maxPct
  }

  datatype FlushOutcome = FlushOutcome(stampedVersion: nat, carriesTombstones: bool, snapshotIsCurrent: bool)

  datatype FlushResult = Flushed(img: Image, outcome: FlushOutcome) | Refused

  /** `reconcile_and_write_flush`: refused on a corrupt flat id table, or when the rows to be written
      hold id 0 or a repeated id and no cell layout is carried. */
  function Flush(img: Image, snap: seq<Row>, touched: seq<Id>, proposed: nat, maxPct: int): (r: FlushResult)
  {
    if img.rows != [] && img.lists == 0 && !Distinct(Ids(img.rows)) then Refused else
      var rows := FlushRows(img.rows, snap, touched);
      var carried := img.cellRows > 0 && DeltaWithinBound(img.cellRows, |rows|, maxPct);
      if !carried && !(NonzeroIds(rows) && Distinct(Ids(rows))) then Refused else
        var dead := CarryDead(if img.rows == [] then [] else img.dead, |img.rows|, Ids(rows), touched);
        var version := NextAmVersion(Some(img.version), proposed);
        Flushed(img.(version := version, cellRows := if carried then img.cellRows else 0, rows := rows, dead := dead),
                FlushOutcome(version, dead != [], rows == snap))
  }

  // ---------------------------------------------------------------- what a flush does

  lemma {:induction false} TouchedRowsHas(snap: seq<Row>, touched: seq<Id>, k: Id)
    ensures Has(TouchedRows(snap, touched), k) <==> (k in touched && Has(snap, k))
    ensures Has(TouchedRows(snap, touched), k) ==>
              TouchedRows(snap, touched)[SlotOf(TouchedRows(snap, touched), k)] == snap[SlotOf(snap, k)]
  {
    if snap != [] {
      var init, last := snap[..|snap| - 1], snap[|snap| - 1];
      TouchedRowsHas(init, touched, k);
      assert snap == init + [last];
      AppendSlot(init, last, k);
      if last.id in touched { AppendSlot(TouchedRows(init, touched), last, k); }
    }
  }

  lemma {:induction false} TouchedRowsUnique(snap: seq<Row>, touched: seq<Id>)
    requires Unique(snap)
    ensures Unique(TouchedRows(snap, touched))
  {
    if snap != [] {
      var init, last := snap[..|snap| - 1], snap[|snap| - 1];
      TouchedRowsUnique(init, touched);
      TouchedRowsHas(init, touched, last.id);
      if last.id in touched { AppendUnique(TouchedRows(init, touched), last); }
    }
  }

  lemma FlushRowsUnique(disk: seq<Row>, snap: seq<Row>, touched: seq<Id>)
    requires Unique(disk) && Unique(snap)
    ensures Unique(FlushRows(disk, snap, touched))
  {
    if disk != [] {
      SpliceAllUnique(disk, snap, FlushOrder(touched));
    } else {
      TouchedRowsUnique(snap, touched);
    }
  }

  lemma FlushRowsAt(disk: seq<Row>, snap: seq<Row>, touched: seq<Id>, k: Id)
    ensures var rows := FlushRows(disk, snap, touched);
            && (Has(rows, k) <==> (Has(disk, k) || (k in touched && Has(snap, k))))
            && (Has(rows, k) ==>
                  rows[SlotOf(rows, k)].code
                  == (if k in touched && Has(snap, k) then snap[SlotOf(snap, k)].code else disk[SlotOf(disk, k)].code))
  {
    if disk != [] {
      var rows := FlushRows(disk, snap, touched);
      SpliceAllAt(disk, snap, FlushOrder(touched), k);
      assert k in ToMap(rows) <==> Has(rows, k);
      assert k in ToMap(snap) <==> Has(snap, k);
      assert k in ToMap(disk) <==> Has(disk, k);
    } else {
      TouchedRowsHas(snap, touched, k);
    }
  }

  lemma FlushRowsNonzero(disk: seq<Row>, snap: seq<Row>, touched: seq<Id>)
    requires Unique(disk) && Unique(snap) && NonzeroIds(disk) && NonzeroIds(snap)
    ensures NonzeroIds(FlushRows(disk, snap, touched))
  {
    var rows := FlushRows(disk, snap, touched);
    forall i | 0 <= i < |rows| ensures rows[i].id != 0 {
      FlushRowsAt(disk, snap, touched, rows[i].id);
      SlotOfLast(rows, rows[i].id, i);
    }
  }

  lemma DistinctIds(rows: seq<Row>)
    ensures Distinct(Ids(rows)) <==> Unique(rows)
  {
    if Distinct(Ids(rows)) {
      forall i, j | 0 <= i < j < |rows| ensures rows[i].id != rows[j].id {
        assert Ids(rows)[i] != Ids(rows)[j];
      }
    }
  }

  /** Which slots are dead after a flush: those that were, less the ones written back. */
  lemma CarryDeadAt(img: Image, ids: seq<Id>, touched: seq<Id>, t: nat)
    requires |img.rows| <= |ids| && Bitmap.PaddingClear(img.dead, |img.rows|)
    ensures var dead := CarryDead(if img.rows == [] then [] else img.dead, |img.rows|, ids, touched);
            Bitmap.IsSet(dead, t) <==> (Bitmap.IsSet(img.dead, t) && t < |img.rows| && ids[t] !in touched)
  {
    Bitmap.AllZeroIffNoneSet(if img.rows == [] then [] else img.dead);
  }

  predicate TouchedInSnapshot(snap: seq<Row>, touched: seq<Id>) {
    forall id :: id in touched ==> Has(snap, id)
  }

  lemma FlushAliveAt(img: Image, snap: seq<Row>, touched: seq<Id>, out: Image, k: Id)
    requires Sound(img) && Unique(out.rows) && out.rows == FlushRows(img.rows, snap, touched)
    requires TouchedInSnapshot(snap, touched)
    requires out.dead == CarryDead(if img.rows == [] then [] else img.dead, |img.rows|, Ids(out.rows), touched)
    ensures Alive(out, k) <==> (Alive(img, k) || k in touched)
    ensures Alive(out, k) ==> out.rows[SlotOf(out.rows, k)].code
                              == if k in touched then snap[SlotOf(snap, k)].code else img.rows[SlotOf(img.rows, k)].code
  {
    var rows := out.rows;
    FlushRowsAt(img.rows, snap, touched, k);
    if Has(rows, k) {
      var s := SlotOf(rows, k);
      CarryDeadAt(img, Ids(rows), touched, s);
      if Has(img.rows, k) {
        SlotOfUnique(rows, SlotOf(img.rows, k));
      } else if s < |img.rows| {
        SlotOfLast(img.rows, k, s);
      }
    }
  }

  lemma FlushPointwise(img: Image, snap: seq<Row>, touched: seq<Id>, out: Image, k: Id)
    requires Sound(img) && Unique(out.rows) && out.rows == FlushRows(img.rows, snap, touched)
    requires TouchedInSnapshot(snap, touched)
    requires out.dead == CarryDead(if img.rows == [] then [] else img.dead, |img.rows|, Ids(out.rows), touched)
    ensures k in Live(out) <==> (k in Live(img) || k in Picked(snap, touched))
    ensures k in Live(out) ==>
              Live(out)[k] == if k in Picked(snap, touched) then Picked(snap, touched)[k] else Live(img)[k]
  {
    FlushAliveAt(img, snap, touched, out, k);
    assert k in Picked(snap, touched) <==> k in touched;
  }

  lemma FlushLiveOf(img: Image, snap: seq<Row>, touched: seq<Id>, out: Image)
    requires Sound(img) && Unique(out.rows) && out.rows == FlushRows(img.rows, snap, touched)
    requires TouchedInSnapshot(snap, touched)
    requires out.dead == CarryDead(if img.rows == [] then [] else img.dead, |img.rows|, Ids(out.rows), touched)
    ensures Live(out) == Live(img) + Picked(snap, touched)
  {
    hide *;
    var got, had, upserts := Live(out), Live(img), Picked(snap, touched);
    forall k: Id ensures k in got <==> (k in had || k in upserts)
                 ensures k in got ==> got[k] == if k in upserts then upserts[k] else had[k]
    {
      FlushPointwise(img, snap, touched, out, k);
    }
    MapMerge(got, had, upserts);
  }

  /** For every disk image and every snapshot, a flush that is not refused changes the live contents
      by exactly the transaction's upserts: nothing vacuumed comes back, nothing else is lost. */
  lemma FlushLive(img: Image, snap: seq<Row>, touched: seq<Id>, proposed: nat, maxPct: int)
    requires Sound(img) && Unique(snap) && TouchedInSnapshot(snap, touched)
    requires Flush(img, snap, touched, proposed, maxPct).Flushed?
    ensures Live(Flush(img, snap, touched, proposed, maxPct).img) == Live(img) + Picked(snap, touched)
  {
    FlushRowsUnique(img.rows, snap, touched);
    FlushLiveOf(img, snap, touched, Flush(img, snap, touched, proposed, maxPct).img);
  }

  lemma FlushSound(img: Image, snap: seq<Row>, touched: seq<Id>, proposed: nat, maxPct: int)
    requires Sound(img) && Unique(snap)
    requires Flush(img, snap, touched, proposed, maxPct).Flushed?
    ensures Sound(Flush(img, snap, touched, proposed, maxPct).img)
  {
    var out := Flush(img, snap, touched, proposed, maxPct).img;
    FlushRowsUnique(img.rows, snap, touched);
    forall t: nat | |out.rows| <= t ensures !Bitmap.IsSet(out.dead, t) {
      CarryDeadAt(img, Ids(out.rows), touched, t);
    }
  }

  /** Of the guards inside the flush, the ones on repeated ids never fire for a sound image and a
      duplicate-free snapshot; the one on id 0 fires exactly when a written row has it. */
  lemma FlushRefusedIff(img: Image, snap: seq<Row>, touched: seq<Id>, proposed: nat, maxPct: int)
    requires Sound(img) && NonzeroIds(img.rows) && Unique(snap)
    ensures var carried := img.cellRows > 0
            && DeltaWithinBound(img.cellRows, |FlushRows(img.rows, snap, touched)|, maxPct);
            Flush(img, snap, touched, proposed, maxPct).Refused? <==> (!carried && 0 in touched && Has(snap, 0))
  {
    var rows := FlushRows(img.rows, snap, touched);
    FlushRowsUnique(img.rows, snap, touched);
    DistinctIds(img.rows);
    DistinctIds(rows);
    FlushRowsAt(img.rows, snap, touched, 0);
    assert !Has(img.rows, 0);
    if Has(rows, 0) {
      assert rows[SlotOf(rows, 0)].id == 0;
    } else {
      forall i | 0 <= i < |rows| ensures rows[i].id != 0 {
        if rows[i].id == 0 { SlotOfLast(rows, 0, i); }
      }
    }
  }

  /** While the cell layout is carried, the slots it partitions keep their ids. */
  lemma FlushKeepsCells(img: Image, snap: seq<Row>, touched: seq<Id>, proposed: nat, maxPct: int)
    requires Sound(img) && Flush(img, snap, touched, proposed, maxPct).Flushed?
    ensures var out := Flush(img, snap, touched, proposed, maxPct).img;
            out.cellRows > 0 ==>
              out.cellRows == img.cellRows && Ids(out.rows)[..img.cellRows] == Ids(img.rows)[..img.cellRows]
  {
  }

  /** What a flush stamps and reports: the next version or the proposed one, whichever is larger, and whether
      the image it wrote has tombstones and is the snapshot. */
  lemma FlushStamps(img: Image, snap: seq<Row>, touched: seq<Id>, proposed: nat, maxPct: int)
    requires Flush(img, snap, touched, proposed, maxPct).Flushed? && img.version < U32_MAX
    ensures var r := Flush(img, snap, touched, proposed, maxPct);
            && r.img.version > img.version && r.img.version >= proposed
            && (r.img.version == img.version + 1 || r.img.version == proposed)
            && r.outcome.stampedVersion == r.img.version
            && (r.outcome.carriesTombstones <==> r.img.dead != [])
            && (r.outcome.snapshotIsCurrent <==> r.img.rows == snap)
            && r.img.node == img.node && r.img.shape == img.shape && r.img.lists == img.lists
  {
  }

  lemma {:induction false} AllTouched(snap: seq<Row>, touched: seq<Id>)
    requires forall i :: 0 <= i < |snap| ==> snap[i].id in touched
    ensures TouchedRows(snap, touched) == snap
  {
    if snap != [] { AllTouched(snap[..|snap| - 1], touched); }
  }

  /** The first flush of an index whose rows all come from this transaction writes them in its order, so its
      copy is what is on disk. */
  lemma FirstFlushIsCurrent(img: Image, snap: seq<Row>, touched: seq<Id>, proposed: nat, maxPct: int)
    requires img.rows == [] && forall i :: 0 <= i < |snap| ==> snap[i].id in touched
    requires Flush(img, snap, touched, proposed, maxPct).Flushed?
    ensures var r := Flush(img, snap, touched, proposed, maxPct);
            r.img.rows == snap && r.outcome.snapshotIsCurrent && !r.outcome.carriesTombstones
  {
    AllTouched(snap, touched);
  }

  /** The cell layout is carried over exactly when there is one and the rows past it are at most `maxPct`
      percent of the rows in it; otherwise the index is left without cells. */
  lemma LayoutCarriedIff(img: Image, snap: seq<Row>, touched: seq<Id>, proposed: nat, maxPct: int)
    requires Sound(img) && Flush(img, snap, touched, proposed, maxPct).Flushed?
    ensures var out := Flush(img, snap, touched, proposed, maxPct).img;
            if img.cellRows > 0 && maxPct > 0 && 100 * |out.rows| <= (100 + maxPct) * img.cellRows
            then out.cellRows == img.cellRows else out.cellRows == 0
  {
    hide FlushRows, CarryDead, NonzeroIds, Unique, Ids, DeltaWithinBound;
    PercentPast(img.cellRows, |FlushRows(img.rows, snap, touched)|, maxPct);
  }

  lemma PercentPast(cellRows: nat, totalRows: nat, maxPct: int)
    requires cellRows <= totalRows
    ensures DeltaWithinBound(cellRows, totalRows, maxPct) <==>
            cellRows > 0 && maxPct > 0 && 100 * totalRows <= (100 + maxPct) * cellRows
  {
    assert (totalRows - cellRows) * 100 == 100 * totalRows - 100 * cellRows;
    assert (100 + maxPct) * cellRows == 100 * cellRows + cellRows * maxPct;
  }

  // ---------------------------------------------------------------- slot order of a bulk insert

  /** The last `n` rows of a list, last one first. */
  function LastRows(added: seq<Row>, n: nat): (r: seq<Row>)
    requires n <= |added|
    ensures |r| == n && forall i :: 0 <= i < n ==> r[i] == added[|added| - 1 - i]
  {
    seq(n, i requires 0 <= i < n => added[|added| - 1 - i])
  }

  lemma NotYetAppended(disk: seq<Row>, added: seq<Row>, n: nat)
    requires Unique(disk + added) && n < |added|
    ensures !Has(disk + LastRows(added, n), added[|added| - 1 - n].id)
  {
    var mid, id := disk + LastRows(added, n), added[|added| - 1 - n].id;
    var all := disk + added;
    assert all[|disk| + |added| - 1 - n].id == id;
    forall i | 0 <= i < |mid| ensures mid[i].id != id {
      assert mid[i] == all[if i < |disk| then i else |disk| + |added| - 1 - (i - |disk|)];
    }
  }

  lemma SpliceFreshStep(disk: seq<Row>, added: seq<Row>, snap: seq<Row>, n: nat)
    requires snap == disk + added && Unique(snap) && 0 < n <= |added|
    ensures SpliceOne(disk + LastRows(added, n - 1), snap, added[|added| - n].id) == disk + LastRows(added, n)
  {
    var row := added[|added| - n];
    assert snap[|disk| + |added| - n] == row;
    SlotOfUnique(snap, |disk| + |added| - n);
    NotYetAppended(disk, added, n - 1);
    assert LastRows(added, n) == LastRows(added, n - 1) + [row];
  }

  /** A bulk insert of fresh rows lands on a non-empty index in reverse order of insertion. */
  lemma {:induction false} SpliceFresh(disk: seq<Row>, added: seq<Row>, snap: seq<Row>, n: nat)
    requires snap == disk + added && Unique(snap) && n <= |added|
    ensures SpliceAll(disk, snap, Reversed(Ids(added))[..n]) == disk + LastRows(added, n)
  {
    var order := Reversed(Ids(added));
    if n > 0 {
      SpliceFresh(disk, added, snap, n - 1);
      assert order[..n][..n - 1] == order[..n - 1] && order[..n][n - 1] == added[|added| - n].id;
      SpliceFreshStep(disk, added, snap, n);
    } else {
      assert disk + LastRows(added, 0) == disk;
    }
  }

  lemma {:induction false} KeepFirstDistinct(s: seq<Id>)
    requires Distinct(s)
    ensures KeepFirst(s) == s
  {
    if s != [] {
      KeepFirstDistinct(s[..|s| - 1]);
      assert s == s[..|s| - 1] + [s[|s| - 1]];
    }
  }

  lemma BulkFlushRows(disk: seq<Row>, added: seq<Row>)
    requires disk != [] && Unique(disk + added)
    ensures FlushRows(disk, disk + added, Ids(added)) == disk + LastRows(added, |added|)
  {
    var n, all := |added|, disk + added;
    SpliceFresh(disk, added, all, n);
    var back := Reversed(Ids(added));
    assert back[..n] == back;
    hide SpliceAll, Unique;
    assert Distinct(back) by {
      forall i, j | 0 <= i < j < |back| ensures back[i] != back[j] {
        UniqueAt(all, |disk| + n - 1 - j, |disk| + n - 1 - i);
      }
    }
    KeepFirstDistinct(back);
  }

  lemma UniqueAt(rows: seq<Row>, i: nat, j: nat)
    requires Unique(rows) && i < j < |rows|
    ensures rows[i].id != rows[j].id
  {
  }

  /** So the committing backend's copy still equals the disk exactly when at most one fresh row was added. */
  lemma BulkInsertCurrentIff(img: Image, added: seq<Row>, proposed: nat, maxPct: int)
    requires img.rows != [] && Unique(img.rows + added)
    requires Flush(img, img.rows + added, Ids(added), proposed, maxPct).Flushed?
    ensures Flush(img, img.rows + added, Ids(added), proposed, maxPct).outcome.snapshotIsCurrent <==> |added| <= 1
  {
    var disk, n, all := img.rows, |added|, img.rows + added;
    BulkFlushRows(disk, added);
    var out := disk + LastRows(added, n);
    if n >= 2 {
      assert out[|disk|] == added[n - 1];
      assert all[|disk|] == added[0] && all[|disk| + n - 1] == added[n - 1];
      UniqueAt(all, |disk|, |disk| + n - 1);
    } else {
      assert out == all;
    }
  }
}
