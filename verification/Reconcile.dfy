/** The pure core of the deferred flush: the rows now on disk with one transaction's upserts
    spliced in from the committing backend's snapshot. */
module Reconcile {
  import opened Collections
  import opened IdMap
  import opened Slots

  // ---------------------------------------------------------------- the specification

  function Reversed(s: seq<Id>): (r: seq<Id>)
    ensures |r| == |s| && forall i :: 0 <= i < |s| ==> r[i] == s[|s| - 1 - i]
  {
    seq(|s|, i requires 0 <= i < |s| => s[|s| - 1 - i])
  }

  /** Duplicates dropped, first occurrences kept in order. */
  function KeepFirst(s: seq<Id>): (r: seq<Id>)
    ensures Distinct(r)
    ensures forall id: Id :: id in r <==> id in s
  {
    if s == [] then [] else
      var rest := KeepFirst(s[..|s| - 1]);
      var last := s[|s| - 1];
      assert s == s[..|s| - 1] + [last];
      if last in rest then rest else rest + [last]
  }

  /** Touched ids in the order the flush visits them: latest upsert first, each id once. */
  function FlushOrder(touched: seq<Id>): (r: seq<Id>)
    ensures Distinct(r)
    ensures forall id: Id :: id in r <==> id in touched
  {
    var back := Reversed(touched);
    assert forall id: Id :: id in back <==> id in touched by {
      forall id: Id | id in touched ensures id in back {
        var i :| 0 <= i < |touched| && touched[i] == id;
        assert back[|touched| - 1 - i] == id;
      }
    }
    KeepFirst(back)
  }

  /** One touched id: overwrite its slot in place, or append a slot; ids gone from the snapshot are skipped. */
  function SpliceOne(out: seq<Row>, snap: seq<Row>, id: Id): (r: seq<Row>)
    ensures |out| <= |r| <= |out| + 1
    ensures forall i :: 0 <= i < |out| ==> r[i].id == out[i].id
  {
    if !Has(snap, id) then out
    else
      var row := snap[SlotOf(snap, id)];
      if Has(out, id) then out[SlotOf(out, id) := row] else out + [row]
  }

  function SpliceAll(out: seq<Row>, snap: seq<Row>, ids: seq<Id>): (r: seq<Row>)
    ensures |out| <= |r| <= |out| + |ids|
    ensures forall i :: 0 <= i < |out| ==> r[i].id == out[i].id
  {
    if ids == [] then out
    else SpliceOne(SpliceAll(out, snap, ids[..|ids| - 1]), snap, ids[|ids| - 1])
  }

  /** The rows a flush writes when the disk holds rows already. */
  function ReconcileRows(disk: seq<Row>, snap: seq<Row>, touched: seq<Id>): (r: seq<Row>)
    ensures |disk| <= |r|
    ensures forall i :: 0 <= i < |disk| ==> r[i].id == disk[i].id
  {
    SpliceAll(disk, snap, FlushOrder(touched))
  }

  /** The upserts a set of touched ids stands for, taken from the snapshot. */
  function Picked(snap: seq<Row>, touched: seq<Id>): (m: map<Id, Code>)
    ensures forall id: Id :: id in m <==> (id in touched && id in ToMap(snap))
  {
    map id | id in touched && id in ToMap(snap) :: ToMap(snap)[id]
  }

  // ---------------------------------------------------------------- what it means

  lemma SameIdsSameSlot(a: seq<Row>, b: seq<Row>, id: Id)
    requires |a| == |b| && forall i :: 0 <= i < |a| ==> a[i].id == b[i].id
    ensures SlotOf(a, id) == SlotOf(b, id)
  {
    if a != [] && a[|a| - 1].id != id {
      SameIdsSameSlot(a[..|a| - 1], b[..|b| - 1], id);
    }
  }

  lemma SpliceOneAt(out: seq<Row>, snap: seq<Row>, id: Id, k: Id)
    ensures k in ToMap(SpliceOne(out, snap, id)) <==> (k in ToMap(out) || (k == id && id in ToMap(snap)))
    ensures k in ToMap(SpliceOne(out, snap, id)) ==>
              ToMap(SpliceOne(out, snap, id))[k] ==
                if k == id && id in ToMap(snap) then ToMap(snap)[id] else ToMap(out)[k]
  {
    if Has(snap, id) {
      var row := snap[SlotOf(snap, id)];
      if Has(out, id) {
        SameIdsSameSlot(out, out[SlotOf(out, id) := row], k);
      } else {
        AppendSlot(out, row, k);
      }
    }
  }

  /** For every disk and snapshot, the splice adds exactly the picked upserts and changes nothing else. */
  lemma {:induction false} SpliceAllAt(out: seq<Row>, snap: seq<Row>, ids: seq<Id>, k: Id)
    ensures k in ToMap(SpliceAll(out, snap, ids)) <==> (k in ToMap(out) || (k in ids && k in ToMap(snap)))
    ensures k in ToMap(SpliceAll(out, snap, ids)) ==>
              ToMap(SpliceAll(out, snap, ids))[k]
              == if k in ids && k in ToMap(snap) then ToMap(snap)[k] else ToMap(out)[k]
  {
    if ids != [] {
      var init, last := ids[..|ids| - 1], ids[|ids| - 1];
      assert ids == init + [last];
      SpliceAllAt(out, snap, init, k);
      SpliceOneAt(SpliceAll(out, snap, init), snap, last, k);
    }
  }

  lemma ReconcileMap(disk: seq<Row>, snap: seq<Row>, touched: seq<Id>)
    ensures ToMap(ReconcileRows(disk, snap, touched)) == ToMap(disk) + Picked(snap, touched)
  {
    var out, want := ToMap(ReconcileRows(disk, snap, touched)), ToMap(disk) + Picked(snap, touched);
    forall k: Id ensures k in out <==> k in want
                 ensures k in out ==> out[k] == want[k]
    {
      SpliceAllAt(disk, snap, FlushOrder(touched), k);
    }
  }

  lemma SpliceOneUnique(out: seq<Row>, snap: seq<Row>, id: Id)
    requires Unique(out)
    ensures Unique(SpliceOne(out, snap, id))
  {
    if Has(snap, id) && !Has(out, id) { AppendUnique(out, snap[SlotOf(snap, id)]); }
  }

  lemma {:induction false} SpliceAllUnique(out: seq<Row>, snap: seq<Row>, ids: seq<Id>)
    requires Unique(out)
    ensures Unique(SpliceAll(out, snap, ids))
  {
    if ids != [] {
      SpliceAllUnique(out, snap, ids[..|ids| - 1]);
      SpliceOneUnique(SpliceAll(out, snap, ids[..|ids| - 1]), snap, ids[|ids| - 1]);
    }
  }

  /** A slot keeps its stored vector unless its id was touched, and then it takes the snapshot's. */
  lemma {:induction false} SpliceAllSlot(out: seq<Row>, snap: seq<Row>, ids: seq<Id>, i: nat)
    requires Unique(out) && i < |out|
    ensures SpliceAll(out, snap, ids)[i]
         == if out[i].id in ids && Has(snap, out[i].id) then snap[SlotOf(snap, out[i].id)] else out[i]
  {
    if ids != [] {
      var init, last := ids[..|ids| - 1], ids[|ids| - 1];
      assert ids == init + [last];
      SpliceAllSlot(out, snap, init, i);
      var mid := SpliceAll(out, snap, init);
      SpliceAllUnique(out, snap, init);
      SlotOfUnique(mid, i);
    }
  }

  /** Appended slots carry touched ids only. */
  lemma {:induction false} SpliceAllTail(out: seq<Row>, snap: seq<Row>, ids: seq<Id>, i: nat)
    requires |out| <= i < |SpliceAll(out, snap, ids)|
    ensures SpliceAll(out, snap, ids)[i].id in ids
  {
    var init, last := ids[..|ids| - 1], ids[|ids| - 1];
    assert ids == init + [last];
    if i < |SpliceAll(out, snap, init)| { SpliceAllTail(out, snap, init, i); }
  }

  // ---------------------------------------------------------------- the algorithm on flat arrays

  /** Codes, scales and ids read as one slot table. */
  function Table(stride: nat, codes: seq<bv8>, scales: seq<nat>, ids: seq<Id>): (r: seq<Row>)
    requires Aligned(codes, stride, |ids|) && |scales| == |ids|
    ensures |r| == |ids|
    ensures forall i :: 0 <= i < |ids| ==> r[i] == Row(ids[i], Code(Record(codes, stride, |ids|, i), scales[i]))
  {
    seq(|ids|, i requires 0 <= i < |ids| => Row(ids[i], Code(Record(codes, stride, |ids|, i), scales[i])))
  }

  ghost predicate IndexesAt(m: map<Id, nat>, rows: seq<Row>, id: Id) {
    (id in m <==> Has(rows, id)) && (id in m ==> m[id] == SlotOf(rows, id))
  }

  /** A hash map from id to slot, filled from the table. */
  ghost predicate Indexes(m: map<Id, nat>, rows: seq<Row>) {
    forall id: Id :: IndexesAt(m, rows, id)
  }

  lemma IndexesOne(m: map<Id, nat>, rows: seq<Row>, id: Id)
    requires Indexes(m, rows)
    ensures id in m <==> Has(rows, id)
    ensures id in m ==> m[id] == SlotOf(rows, id)
  {
    assert IndexesAt(m, rows, id);
  }

  lemma TableRow(stride: nat, codes: seq<bv8>, scales: seq<nat>, ids: seq<Id>, i: nat)
    requires Aligned(codes, stride, |ids|) && |scales| == |ids| && i < |ids|
    ensures Offset(stride, i) + stride <= |codes|
    ensures Table(stride, codes, scales, ids)[i]
              == Row(ids[i], Code(codes[Offset(stride, i)..Offset(stride, i) + stride], scales[i]))
  {
    OffsetMono(stride, i, |ids|);
  }

  method IndexIds(ids: seq<Id>, ghost rows: seq<Row>) returns (m: map<Id, nat>)
    requires |rows| == |ids| && forall i :: 0 <= i < |ids| ==> rows[i].id == ids[i]
    ensures Indexes(m, rows)
  {
    m := map[];
    for slot := 0 to |ids|
      invariant Indexes(m, rows[..slot])
    {
      AppendIndexes(m, rows[..slot], rows[slot]);
      m := m[ids[slot] := slot];
      assert rows[..slot + 1] == rows[..slot] + [rows[slot]];
    }
    assert rows[..|ids|] == rows;
  }

  method OrderTouched(touched: seq<Id>) returns (ordered: seq<Id>)
    ensures ordered == FlushOrder(touched)
  {
    ordered := [];
    var seen: set<Id> := {};
    ghost var back := Reversed(touched);
    var i := |touched|;
    while i > 0
      invariant 0 <= i <= |touched|
      invariant ordered == KeepFirst(back[..|touched| - i])
      invariant forall id: Id :: id in seen <==> id in ordered
    {
      i := i - 1;
      ghost var k := |touched| - i;
      assert back[..k][..k - 1] == back[..k - 1] && back[..k][k - 1] == touched[i];
      if touched[i] !in seen {
        seen := seen + {touched[i]};
        ordered := ordered + [touched[i]];
      }
    }
    assert back[..|touched|] == back;
  }

  /** One spliced row: in place when the id has a slot, otherwise a new slot at the end. */
  method SpliceInto(stride: nat, codes: seq<bv8>, scales: seq<nat>, ids: seq<Id>, slots: map<Id, nat>,
      id: Id, code: seq<bv8>, scale: nat)
    returns (outCodes: seq<bv8>, outScales: seq<nat>, outIds: seq<Id>, outSlots: map<Id, nat>)
    requires Aligned(codes, stride, |ids|) && |scales| == |ids| && |code| == stride
    requires Indexes(slots, Table(stride, codes, scales, ids))
    ensures Aligned(outCodes, stride, |outIds|) && |outScales| == |outIds|
    ensures var before, row := Table(stride, codes, scales, ids), Row(id, Code(code, scale));
            && Table(stride, outCodes, outScales, outIds)
               == (if Has(before, id) then before[SlotOf(before, id) := row] else before + [row])
            && Indexes(outSlots, Table(stride, outCodes, outScales, outIds))
  {
    ghost var before := Table(stride, codes, scales, ids);
    IndexesOne(slots, before, id);
    assert |before| == |ids|;
    hide *;
    if id in slots {
      var dst := slots[id];
      assert before[dst].id == id;
      OverwriteTable(stride, codes, scales, ids, dst, code, scale);
      outCodes, outScales, outIds, outSlots :=
        Overwrite(codes, Offset(stride, dst), code), scales[dst := scale], ids, slots;
      OverwriteIndexes(slots, before, Table(stride, outCodes, outScales, outIds));
    } else {
      AppendTable(stride, codes, scales, ids, code, scale, id);
      AppendIndexes(slots, before, Row(id, Code(code, scale)));
      outCodes, outScales, outIds, outSlots := codes + code, scales + [scale], ids + [id], slots[id := |ids|];
    }
  }

  /** One touched id: its snapshot row spliced in, or nothing when the snapshot no longer has it. */
  method SpliceTouched(stride: nat, codes: seq<bv8>, scales: seq<nat>, ids: seq<Id>, slots: map<Id, nat>,
      snapCodes: seq<bv8>, snapScales: seq<nat>, snapIds: seq<Id>, snapSlots: map<Id, nat>, id: Id)
    returns (outCodes: seq<bv8>, outScales: seq<nat>, outIds: seq<Id>, outSlots: map<Id, nat>)
    requires Aligned(codes, stride, |ids|) && |scales| == |ids|
    requires Aligned(snapCodes, stride, |snapIds|) && |snapScales| == |snapIds|
    requires Indexes(slots, Table(stride, codes, scales, ids))
    requires Indexes(snapSlots, Table(stride, snapCodes, snapScales, snapIds))
    ensures Aligned(outCodes, stride, |outIds|) && |outScales| == |outIds|
    ensures Table(stride, outCodes, outScales, outIds)
         == SpliceOne(Table(stride, codes, scales, ids), Table(stride, snapCodes, snapScales, snapIds), id)
    ensures Indexes(outSlots, Table(stride, outCodes, outScales, outIds))
  {
    ghost var snap := Table(stride, snapCodes, snapScales, snapIds);
    IndexesOne(snapSlots, snap, id);
    hide Indexes, Table, Aligned, Record, Offset;
    if id in snapSlots {
      var from := snapSlots[id];
      TableRow(stride, snapCodes, snapScales, snapIds, from);
      var code := snapCodes[Offset(stride, from)..Offset(stride, from) + stride];
      outCodes, outScales, outIds, outSlots :=
        SpliceInto(stride, codes, scales, ids, slots, id, code, snapScales[from]);
    } else {
      outCodes, outScales, outIds, outSlots := codes, scales, ids, slots;
    }
  }

  method ReconcileFlushImage(stride: nat, diskCodes: seq<bv8>, diskScales: seq<nat>, diskIds: seq<Id>,
      snapCodes: seq<bv8>, snapScales: seq<nat>, snapIds: seq<Id>, touched: seq<Id>)
    returns (outCodes: seq<bv8>, outScales: seq<nat>, outIds: seq<Id>)
    requires Aligned(diskCodes, stride, |diskIds|) && |diskScales| == |diskIds|
    requires Aligned(snapCodes, stride, |snapIds|) && |snapScales| == |snapIds|
    ensures Aligned(outCodes, stride, |outIds|) && |outScales| == |outIds|
    ensures Table(stride, outCodes, outScales, outIds)
         == ReconcileRows(Table(stride, diskCodes, diskScales, diskIds),
           Table(stride, snapCodes, snapScales, snapIds), touched)
  {
    outCodes, outScales, outIds := diskCodes, diskScales, diskIds;
    ghost var disk := Table(stride, diskCodes, diskScales, diskIds);
    ghost var snap := Table(stride, snapCodes, snapScales, snapIds);
    var diskSlot: map<Id, nat> := IndexIds(diskIds, disk);
    var snapSlot: map<Id, nat> := IndexIds(snapIds, snap);
    var ordered := OrderTouched(touched);
    assert ReconcileRows(disk, snap, touched) == SpliceAll(disk, snap, ordered);
    hide Indexes, Table, Aligned, Record, Offset, FlushOrder, SpliceOne, Has;
    for n := 0 to |ordered|
      invariant Aligned(outCodes, stride, |outIds|) && |outScales| == |outIds|
      invariant Table(stride, outCodes, outScales, outIds) == SpliceAll(disk, snap, ordered[..n])
      invariant Indexes(diskSlot, Table(stride, outCodes, outScales, outIds))
    {
      assert ordered[..n + 1][..n] == ordered[..n];
      outCodes, outScales, outIds, diskSlot := SpliceTouched(stride, outCodes, outScales, outIds, diskSlot,
                                                 snapCodes, snapScales, snapIds, snapSlot, ordered[n]);
    }
    assert ordered[..|ordered|] == ordered;
  }

  lemma OverwriteTable(stride: nat, codes: seq<bv8>, scales: seq<nat>, ids: seq<Id>, i: nat, code: seq<bv8>, scale: nat)
    requires Aligned(codes, stride, |ids|) && |scales| == |ids| && i < |ids| && |code| == stride
    ensures Offset(stride, i) + stride <= |codes|
    ensures Aligned(Overwrite(codes, Offset(stride, i), code), stride, |ids|)
    ensures Table(stride, Overwrite(codes, Offset(stride, i), code), scales[i := scale], ids)
         == Table(stride, codes, scales, ids)[i := Row(ids[i], Code(code, scale))]
  {
    OverwriteRecord(codes, stride, |ids|, i, code);
    var out := Overwrite(codes, Offset(stride, i), code);
    forall j | 0 <= j < |ids|
      ensures Record(out, stride, |ids|, j) == if j == i then code else Record(codes, stride, |ids|, j)
    {
      assert Records(out, stride, |ids|)[j] == Record(out, stride, |ids|, j);
    }
  }

  lemma AppendTable(stride: nat, codes: seq<bv8>, scales: seq<nat>, ids: seq<Id>, code: seq<bv8>, scale: nat, id: Id)
    requires Aligned(codes, stride, |ids|) && |scales| == |ids| && |code| == stride
    ensures Aligned(codes + code, stride, |ids| + 1)
    ensures Table(stride, codes + code, scales + [scale], ids + [id])
         == Table(stride, codes, scales, ids) + [Row(id, Code(code, scale))]
  {
    var n := |ids|;
    AppendRecord(codes, stride, n, code);
    forall j | 0 <= j < n + 1
      ensures Record(codes + code, stride, n + 1, j) == if j == n then code else Record(codes, stride, n, j)
    {
      assert Records(codes + code, stride, n + 1)[j] == Record(codes + code, stride, n + 1, j);
    }
  }

  lemma OverwriteIndexes(m: map<Id, nat>, rows: seq<Row>, out: seq<Row>)
    requires Indexes(m, rows) && |out| == |rows|
    requires forall j :: 0 <= j < |rows| ==> out[j].id == rows[j].id
    ensures Indexes(m, out)
  {
    forall id: Id ensures IndexesAt(m, out, id) {
      SameIdsSameSlot(rows, out, id);
      assert IndexesAt(m, rows, id);
    }
  }

  lemma AppendIndexes(m: map<Id, nat>, rows: seq<Row>, row: Row)
    requires Indexes(m, rows)
    ensures Indexes(m[row.id := |rows|], rows + [row])
  {
    var grown, out := m[row.id := |rows|], rows + [row];
    forall id: Id ensures IndexesAt(grown, out, id) {
      AppendSlot(rows, row, id);
      assert IndexesAt(m, rows, id);
    }
  }
}
