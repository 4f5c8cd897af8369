/** VACUUM. A flat index swap-removes dead slots from the back, in place on the chains; an IVF
    index leaves every row where it is and marks the slots in the tombstone bitmap. */
module Vacuum {
  import opened Options
  import opened IdMap
  import opened Relfile

  // ---------------------------------------------------------------- the specification

  predicate AscendingBelow(ds: seq<nat>, n: nat) {
    && (forall i, j :: 0 <= i < j < |ds| ==> ds[i] < ds[j])
    && (forall i :: 0 <= i < |ds| ==> ds[i] < n)
  }

  /** Dead slots in ascending order, as the id walk collects them. */
  function DeadSlots(rows: seq<Row>, gone: set<Id>): (ds: seq<nat>)
    ensures AscendingBelow(ds, |rows|)
    ensures forall s: nat :: s in ds <==> (s < |rows| && rows[s].id in gone)
  {
    if rows == [] then [] else
      var rest := DeadSlots(rows[..|rows| - 1], gone);
      if rows[|rows| - 1].id in gone then rest + [|rows| - 1] else rest
  }

  /** The last row copied over slot `s`, and the table one row shorter. */
  function SwapRemove(rows: seq<Row>, s: nat): (r: seq<Row>)
    requires s < |rows|
    ensures |r| == |rows| - 1
    ensures forall i :: 0 <= i < s ==> r[i] == rows[i]
  {
    rows[s := rows[|rows| - 1]][..|rows| - 1]
  }

  /** Dead slots removed highest first. */
  function SwapRemoveAll(rows: seq<Row>, ds: seq<nat>): (r: seq<Row>)
    requires AscendingBelow(ds, |rows|)
    ensures |r| + |ds| == |rows|
    decreases |ds|
  {
    if ds == [] then rows
    else SwapRemoveAll(SwapRemove(rows, ds[|ds| - 1]), ds[..|ds| - 1])
  }

  function MarkAll(bm: seq<bv8>, ds: seq<nat>): (r: seq<bv8>)
    requires forall i :: 0 <= i < |ds| ==> ds[i] / 8 < |bm|
    ensures |r| == |bm|
    ensures forall t: nat :: Bitmap.IsSet(r, t) <==> (t in ds || Bitmap.IsSet(bm, t))
  {
    if ds == [] then bm else
      var r := Bitmap.Mark(MarkAll(bm, ds[..|ds| - 1]), ds[|ds| - 1]);
      assert forall t: nat :: t in ds <==> (t in ds[..|ds| - 1] || t == ds[|ds| - 1]) by {
        assert ds == ds[..|ds| - 1] + [ds[|ds| - 1]];
      }
      r
  }

  /** A bitmap with room for every slot, existing bits kept. */
  function SizeUp(dead: seq<bv8>, n: nat): (r: seq<bv8>)
    ensures Bitmap.BytesFor(n) <= |r|
    ensures forall t: nat :: Bitmap.IsSet(r, t) <==> Bitmap.IsSet(dead, t)
  {
    if |dead| < Bitmap.BytesFor(n) then Bitmap.Resize(dead, Bitmap.BytesFor(n)) else dead
  }

  /** `ambulkdelete` of the given dead ids. With nothing dead the image and its version stay as they are. */
  function VacuumImage(img: Image, gone: set<Id>): (out: Image)
  {
    var ds := DeadSlots(img.rows, gone);
    if ds == [] then img
    else if img.lists > 0 then
      img.(version := NextAmVersion(Some(img.version), 0), dead := MarkAll(SizeUp(img.dead, |img.rows|), ds))
    else
      img.(version := NextAmVersion(Some(img.version), 0), rows := SwapRemoveAll(img.rows, ds))
  }

  // ---------------------------------------------------------------- what it does

  lemma SwapRemoveIsRemove(rows: seq<Row>, s: nat)
    requires Unique(rows) && s < |rows|
    ensures SwapRemove(rows, s) == Remove(rows, rows[s].id)
  {
    SlotOfUnique(rows, s);
  }

  ghost predicate Listed(rows: seq<Row>, ds: seq<nat>, k: Id) {
    exists i :: 0 <= i < |ds| && ds[i] < |rows| && rows[ds[i]].id == k
  }

  lemma ListedStep(rows: seq<Row>, ds: seq<nat>, k: Id)
    requires ds != [] && AscendingBelow(ds, |rows|)
    ensures var last := ds[|ds| - 1]; var init := ds[..|ds| - 1];
            Listed(rows, ds, k) <==> (rows[last].id == k || Listed(SwapRemove(rows, last), init, k))
  {
    var last, init := ds[|ds| - 1], ds[..|ds| - 1];
    var out := SwapRemove(rows, last);
    if Listed(rows, ds, k) && rows[last].id != k {
      var i :| 0 <= i < |ds| && rows[ds[i]].id == k;
      assert init[i] == ds[i] && out[ds[i]] == rows[ds[i]];
    }
    if Listed(out, init, k) {
      var i :| 0 <= i < |init| && init[i] < |out| && out[init[i]].id == k;
      assert ds[i] == init[i] && out[ds[i]] == rows[ds[i]];
    }
  }

  /** Swap-removing from the back drops exactly the listed rows, for any ascending list of slots. */
  lemma {:induction false} SwapRemoveAllMap(rows: seq<Row>, ds: seq<nat>)
    requires Unique(rows) && AscendingBelow(ds, |rows|)
    ensures Unique(SwapRemoveAll(rows, ds))
    ensures forall k: Id :: k in ToMap(SwapRemoveAll(rows, ds)) <==> (k in ToMap(rows) && !Listed(rows, ds, k))
    ensures forall k: Id :: k in ToMap(SwapRemoveAll(rows, ds)) ==> ToMap(SwapRemoveAll(rows, ds))[k] == ToMap(rows)[k]
    decreases |ds|
  {
    if ds != [] {
      var last, init := ds[|ds| - 1], ds[..|ds| - 1];
      var out := SwapRemove(rows, last);
      SwapRemoveIsRemove(rows, last);
      RemoveUnique(rows, rows[last].id);
      RemoveMap(rows, rows[last].id);
      SwapRemoveAllMap(out, init);
      forall k: Id ensures Listed(rows, ds, k) <==> (rows[last].id == k || Listed(out, init, k)) {
        ListedStep(rows, ds, k);
      }
    }
  }

  lemma ListedDead(rows: seq<Row>, gone: set<Id>, k: Id)
    ensures Listed(rows, DeadSlots(rows, gone), k) <==> (Has(rows, k) && k in gone)
  {
    var ds := DeadSlots(rows, gone);
    if Has(rows, k) && k in gone {
      assert SlotOf(rows, k) in ds;
    }
    if Listed(rows, ds, k) {
      var i :| 0 <= i < |ds| && ds[i] < |rows| && rows[ds[i]].id == k;
      assert ds[i] in ds;
      SlotOfLast(rows, k, ds[i]);
    }
  }

  lemma VacuumFlatAt(img: Image, gone: set<Id>, k: Id)
    requires Unique(img.rows) && img.lists == 0 && img.dead == [] && DeadSlots(img.rows, gone) != []
    ensures Alive(VacuumImage(img, gone), k) <==> (Alive(img, k) && k !in gone)
    ensures Alive(VacuumImage(img, gone), k) ==> Live(VacuumImage(img, gone))[k] == Live(img)[k]
  {
    var out := VacuumImage(img, gone);
    SwapRemoveAllMap(img.rows, DeadSlots(img.rows, gone));
    ListedDead(img.rows, gone, k);
    assert k in ToMap(out.rows) <==> Has(out.rows, k);
    assert k in ToMap(img.rows) <==> Has(img.rows, k);
    if Has(out.rows, k) { assert ToMap(out.rows)[k] == ToMap(img.rows)[k]; }
  }

  lemma VacuumFlatSound(img: Image, gone: set<Id>)
    requires Sound(img) && img.lists == 0 && img.cellRows == 0 && img.dead == [] && DeadSlots(img.rows, gone) != []
    ensures Sound(VacuumImage(img, gone))
  {
    SwapRemoveAllMap(img.rows, DeadSlots(img.rows, gone));
  }

  lemma VacuumFlat(img: Image, gone: set<Id>)
    requires Unique(img.rows) && img.lists == 0 && img.dead == [] && DeadSlots(img.rows, gone) != []
    ensures Live(VacuumImage(img, gone)) == Live(img) - gone
  {
    hide *;
    var got, had := Live(VacuumImage(img, gone)), Live(img);
    forall k: Id ensures k in got <==> (k in had && k !in gone)
                 ensures k in got ==> got[k] == had[k]
    {
      VacuumFlatAt(img, gone, k);
    }
    MapMinus(got, had, gone);
  }

  lemma VacuumIvfAt(img: Image, gone: set<Id>, k: Id)
    requires img.lists > 0
    ensures Alive(VacuumImage(img, gone), k) <==> (Alive(img, k) && k !in gone)
    ensures Alive(VacuumImage(img, gone), k) ==> Live(VacuumImage(img, gone))[k] == Live(img)[k]
  {
    var ds := DeadSlots(img.rows, gone);
    if Has(img.rows, k) { assert SlotOf(img.rows, k) in ds <==> k in gone; }
  }

  lemma VacuumIvf(img: Image, gone: set<Id>)
    requires img.lists > 0
    ensures Live(VacuumImage(img, gone)) == Live(img) - gone
  {
    hide *;
    var got, had := Live(VacuumImage(img, gone)), Live(img);
    forall k: Id ensures k in got <==> (k in had && k !in gone)
                 ensures k in got ==> got[k] == had[k]
    {
      VacuumIvfAt(img, gone, k);
    }
    MapMinus(got, had, gone);
  }

  lemma VacuumIvfSound(img: Image, gone: set<Id>)
    requires img.lists > 0 && Bitmap.PaddingClear(img.dead, |img.rows|)
    ensures Bitmap.PaddingClear(VacuumImage(img, gone).dead, |img.rows|)
    ensures VacuumImage(img, gone).rows == img.rows && VacuumImage(img, gone).cellRows == img.cellRows
  {
  }

  /** What a build leaves and every rewrite keeps. A flat index has no tombstones, no cells and no repeated
      id; an IVF index built with soft assignment may repeat one. */
  ghost predicate Healthy(img: Image) {
    && (img.lists == 0 ==> img.dead == [] && img.cellRows == 0 && Unique(img.rows))
    && Bitmap.PaddingClear(img.dead, |img.rows|)
    && img.cellRows <= |img.rows|
    && NonzeroIds(img.rows)
  }

  /** For every image and every set of dead ids, VACUUM removes exactly those ids from the live contents. */
  lemma VacuumLive(img: Image, gone: set<Id>)
    requires Healthy(img)
    ensures Live(VacuumImage(img, gone)) == Live(img) - gone
  {
    var ds := DeadSlots(img.rows, gone);
    if ds == [] {
      forall k: Id | k in Live(img) ensures k !in gone { assert SlotOf(img.rows, k) !in ds; }
      assert Live(img) - gone == Live(img);
    } else if img.lists > 0 {
      VacuumIvf(img, gone);
    } else {
      VacuumFlat(img, gone);
    }
  }

  lemma VacuumHealthy(img: Image, gone: set<Id>)
    requires Healthy(img)
    ensures Healthy(VacuumImage(img, gone))
    ensures Unique(img.rows) ==> Unique(VacuumImage(img, gone).rows)
  {
    var ds := DeadSlots(img.rows, gone);
    if ds == [] {
    } else if img.lists > 0 {
      VacuumIvfSound(img, gone);
    } else {
      VacuumFlatSound(img, gone);
      SwapRemoveAllNonzero(img.rows, ds);
    }
  }

  lemma {:induction false} SwapRemoveAllNonzero(rows: seq<Row>, ds: seq<nat>)
    requires AscendingBelow(ds, |rows|) && NonzeroIds(rows)
    ensures NonzeroIds(SwapRemoveAll(rows, ds))
    decreases |ds|
  {
    if ds != [] { SwapRemoveAllNonzero(SwapRemove(rows, ds[|ds| - 1]), ds[..|ds| - 1]); }
  }

  /** With an id gone VACUUM stamps the very next version, else it leaves the image alone. On a flat index the
      rows that fit the shorter table and live stay in their slots; on a cell index every row does. */
  lemma VacuumMovesLittle(img: Image, gone: set<Id>)
    requires img.version < U32_MAX
    ensures var out := VacuumImage(img, gone);
            && (if exists i :: 0 <= i < |img.rows| && img.rows[i].id in gone then out.version == img.version + 1
                else out == img)
            && out.node == img.node && out.shape == img.shape && out.lists == img.lists && out.cellRows == img.cellRows
            && (if img.lists > 0 then out.rows == img.rows else out.dead == img.dead)
            && (forall s :: 0 <= s < |out.rows| && img.rows[s].id !in gone ==> out.rows[s] == img.rows[s])
            && |out.rows| <= |img.rows|
  {
    var ds := DeadSlots(img.rows, gone);
    if i: nat :| i < |img.rows| && img.rows[i].id in gone { assert i in ds; }
    SwapRemoveAllStay(img.rows, ds);
    if ds != [] { assert ds[0] in ds; }
  }

  lemma {:induction false} SwapRemoveAllStay(rows: seq<Row>, ds: seq<nat>)
    requires AscendingBelow(ds, |rows|)
    ensures var out := SwapRemoveAll(rows, ds); forall s: nat :: s < |out| && s !in ds ==> out[s] == rows[s]
    decreases |ds|
  {
    if ds != [] {
      var last, init := ds[|ds| - 1], ds[..|ds| - 1];
      assert ds == init + [last];
      var rest := SwapRemove(rows, last);
      SwapRemoveAllStay(rest, init);
      var out := SwapRemoveAll(rest, init);
      hide SwapRemoveAll, AscendingBelow;
      forall s: nat | s < |out| && s !in ds ensures out[s] == rows[s] { assert out[s] == rest[s]; }
    }
  }

  // ---------------------------------------------------------------- the algorithms

  method CollectDeadSlots(rows: seq<Row>, gone: set<Id>) returns (ds: seq<nat>)
    ensures ds == DeadSlots(rows, gone)
  {
    ds := [];
    for slot := 0 to |rows|
      invariant ds == DeadSlots(rows[..slot], gone)
    {
      assert rows[..slot + 1][..slot] == rows[..slot];
      if rows[slot].id in gone {
        ds := ds + [slot];
      }
    }
    assert rows[..|rows|] == rows;
  }

  lemma SwapRemoveAllStep(rows: seq<Row>, ds: seq<nat>, i: nat)
    requires i < |ds| && AscendingBelow(ds[..i + 1], |rows|)
    ensures ds[i] < |rows| && AscendingBelow(ds[..i], |rows| - 1)
    ensures SwapRemoveAll(rows, ds[..i + 1]) == SwapRemoveAll(SwapRemove(rows, ds[i]), ds[..i])
  {
    assert ds[..i + 1][..i] == ds[..i];
    assert ds[..i + 1][i] == ds[i];
  }

  /** The in-place swap-remove over the chain; slots past the returned count are left behind. */
  method SwapRemoveInPlace(chain: array<Row>, ds: seq<nat>) returns (alive: nat)
    requires AscendingBelow(ds, chain.Length)
    modifies chain
    ensures alive <= chain.Length
    ensures chain[..alive] == SwapRemoveAll(old(chain[..]), ds)
  {
    alive := chain.Length;
    var i := |ds|;
    assert chain[..alive] == chain[..] && ds[..i] == ds;
    ghost var want := SwapRemoveAll(chain[..], ds);
    while i > 0
      invariant 0 <= i <= |ds| && alive <= chain.Length
      invariant AscendingBelow(ds[..i], alive)
      invariant SwapRemoveAll(chain[..alive], ds[..i]) == want
    {
      hide *;
      i := i - 1;
      SwapRemoveAllStep(chain[..alive], ds, i);
      alive := SwapOut(chain, alive, ds[i]);
    }
  }

  /** Copies the last live row over slot `s`. */
  method SwapOut(chain: array<Row>, alive0: nat, s: nat) returns (alive: nat)
    requires s < alive0 <= chain.Length
    modifies chain
    ensures alive == alive0 - 1 && chain[..alive] == SwapRemove(old(chain[..alive0]), s)
  {
    hide *;
    ghost var before := chain[..alive0];
    alive := alive0 - 1;
    if s != alive {
      chain[s] := chain[alive];
    }
    assert chain[..alive] == before[s := before[alive]][..alive];
    SwapRemoveShape(before, s);
  }

  lemma SwapRemoveShape(rows: seq<Row>, s: nat)
    requires s < |rows|
    ensures SwapRemove(rows, s) == rows[s := rows[|rows| - 1]][..|rows| - 1]
  {
  }

  /** The tombstone path: the merged bitmap and the number of dead slots the planner is told about. */
  method TombstoneDead(dead: seq<bv8>, n: nat, ds: seq<nat>) returns (bitmap: seq<bv8>)
    requires AscendingBelow(ds, n)
    ensures bitmap == MarkAll(SizeUp(dead, n), ds)
  {
    bitmap := SizeUp(dead, n);
    ghost var start := bitmap;
    for i := 0 to |ds|
      invariant |bitmap| == |start| && bitmap == MarkAll(start, ds[..i])
    {
      assert ds[..i + 1][..i] == ds[..i];
      bitmap := Bitmap.Mark(bitmap, ds[i]);
    }
    assert ds[..|ds|] == ds;
  }
}
