/** The 1-bit index: sign codes over Hamming distance. Insert rewrites the whole image with one row
    overwritten or appended; search ranks packed codes and drops tombstoned slots afterwards. */
module OneBit {
  import opened IdMap
  import opened Slots
  import opened Bitmap
  import opened Bits

  /** What is on disk. `rows` is the count in the meta page; `lists` is 0 for an index without cells. */
  datatype BqImage = BqImage(isBq: bool, dim: nat, rows: nat, stride: nat, codes: seq<bv8>, ids: seq<Id>,
                             mean: seq<int>, dead: seq<bv8>, lists: nat, cells: bool, version: nat)

  /** An index stores one fixed-stride code per id, and no tombstone past the last slot. */
  ghost predicate Valid(x: BqImage) {
    && x.stride == BytesFor(x.dim)
    && |x.ids| == x.rows && Aligned(x.codes, x.stride, x.rows)
    && PaddingClear(x.dead, x.rows)
    && (x.dim == 0 ==> x.rows == 0)
  }

  function CodeOf(x: BqImage, slot: nat): (r: seq<bv8>)
    requires |x.ids| == x.rows && Aligned(x.codes, x.stride, x.rows) && slot < |x.ids|
  {
    Record(x.codes, x.stride, x.rows, slot)
  }

  predicate LiveSlot(x: BqImage, slot: nat) {
    slot < |x.ids| && !IsSet(x.dead, slot)
  }

  /** The live view: some live slot of `id` holds `code`. */
  ghost predicate Stores(x: BqImage, id: Id, code: seq<bv8>)
    requires |x.ids| == x.rows && Aligned(x.codes, x.stride, x.rows)
  {
    exists s: nat :: LiveSlot(x, s) && x.ids[s] == id && CodeOf(x, s) == code
  }

  /** Soft assignment may store an id in several slots; they never disagree. */
  ghost predicate OneCodePerId(x: BqImage)
    requires |x.ids| == x.rows && Aligned(x.codes, x.stride, x.rows)
  {
    forall s, t :: 0 <= s < |x.ids| && 0 <= t < |x.ids| && x.ids[s] == x.ids[t] ==> CodeOf(x, s) == CodeOf(x, t)
  }

  // ---------------------------------------------------------------- sign codes

  /** `pack_signs`: bit `i` says whether element `i` is above zero; unused bits stay 0. */
  method PackSigns(v: seq<int>) returns (bytes: seq<bv8>)
    ensures |bytes| == BytesFor(|v|)
    ensures forall j: nat :: j < 8 * |bytes| ==> (At(bytes, j) <==> j < |v| && v[j] > 0)
  {
    bytes := seq(BytesFor(|v|), _ => 0);
    NoBits(bytes);
    hide At;
    for i := 0 to |v|
      invariant |bytes| == BytesFor(|v|)
      invariant forall j: nat :: j < 8 * |bytes| ==> (At(bytes, j) <==> j < i && v[j] > 0)
    {
      if v[i] > 0 {
        OrBitAt(bytes, i);
        bytes := bytes[i / 8 := bytes[i / 8] | MaskOf(7 - i % 8)];
      }
    }
  }

  // ---------------------------------------------------------------- insert, on values

  /** The slots already holding the id, in order. */
  function SlotsWith(ids: seq<Id>, id: Id): (r: seq<nat>)
    ensures forall s: nat :: s in r <==> s < |ids| && ids[s] == id
    ensures forall i :: 0 <= i < |r| ==> r[i] < |ids|
  {
    if ids == [] then [] else
      var n := |ids| - 1;
      var r := SlotsWith(ids[..n], id);
      assert forall s: nat :: s < n ==> ids[..n][s] == ids[s];
      assert forall s: nat :: s in r + [n] <==> s in r || s == n;
      if ids[n] == id then r + [n] else r
  }

  /** Every listed slot gets the code and is revived. */
  ghost predicate Rewritten(x: BqImage, y: BqImage, slots: seq<nat>, code: seq<bv8>)
    requires |x.ids| == x.rows && Aligned(x.codes, x.stride, x.rows)
  {
    && y.ids == x.ids && y.rows == x.rows && y.stride == x.stride && Aligned(y.codes, y.stride, y.rows)
       && |y.dead| == |x.dead|
    && (forall s :: 0 <= s < |x.ids| ==> CodeOf(y, s) == if s in slots then code else CodeOf(x, s))
    && (forall s: nat :: IsSet(y.dead, s) <==> (s !in slots && IsSet(x.dead, s)))
  }

  /** One live slot more, at the end. */
  ghost predicate Appended(x: BqImage, y: BqImage, id: Id, code: seq<bv8>)
    requires |x.ids| == x.rows && Aligned(x.codes, x.stride, x.rows)
  {
    && y.ids == x.ids + [id] && y.rows == x.rows + 1 && Aligned(y.codes, y.stride, y.rows)
    && (forall s :: 0 <= s < |y.ids| ==> CodeOf(y, s) == if s == x.rows then code else CodeOf(x, s))
    && (forall s: nat :: s < |x.ids| ==> (IsSet(y.dead, s) <==> IsSet(x.dead, s)))
    && !IsSet(y.dead, x.rows)
  }

  ghost predicate Upserted(x: BqImage, y: BqImage, id: Id, code: seq<bv8>)
    requires |x.ids| == x.rows && Aligned(x.codes, x.stride, x.rows)
  {
    var slots := SlotsWith(x.ids, id);
    if slots == [] then Appended(x, y, id, code) else Rewritten(x, y, slots, code)
  }

  /** An insert is a map update on the live view: the id now has the new code and no other, every other id
      keeps what it had. */
  lemma InsertIsUpsert(x: BqImage, y: BqImage, id: Id, code: seq<bv8>, k: Id, c: seq<bv8>)
    requires Valid(x) && Upserted(x, y, id, code)
    ensures |y.ids| == y.rows && Aligned(y.codes, y.stride, y.rows)
    ensures Stores(y, k, c) <==> if k == id then c == code else Stores(x, k, c)
  {
    hide Record, Aligned, IsSet;
    var slots := SlotsWith(x.ids, id);
    if slots == [] {
      AppendedView(x, y, id, code, k, c);
    } else {
      RewrittenView(x, y, slots, id, code, k, c);
    }
  }

  lemma AppendedView(x: BqImage, y: BqImage, id: Id, code: seq<bv8>, k: Id, c: seq<bv8>)
    requires Valid(x) && Appended(x, y, id, code) && SlotsWith(x.ids, id) == []
    ensures Stores(y, k, c) <==> if k == id then c == code else Stores(x, k, c)
  {
    hide Record, Aligned, IsSet;
    if Stores(y, k, c) {
      var s: nat :| LiveSlot(y, s) && y.ids[s] == k && CodeOf(y, s) == c;
      if s < x.rows { assert LiveSlot(x, s) && s !in SlotsWith(x.ids, id); }
    }
    if k == id && c == code { assert LiveSlot(y, x.rows); }
    if k != id && Stores(x, k, c) {
      var s: nat :| LiveSlot(x, s) && x.ids[s] == k && CodeOf(x, s) == c;
      assert LiveSlot(y, s);
    }
  }

  lemma RewrittenView(x: BqImage, y: BqImage, slots: seq<nat>, id: Id, code: seq<bv8>, k: Id, c: seq<bv8>)
    requires Valid(x) && Rewritten(x, y, slots, code) && slots == SlotsWith(x.ids, id) && slots != []
    ensures Stores(y, k, c) <==> if k == id then c == code else Stores(x, k, c)
  {
    hide Record, Aligned, IsSet;
    if Stores(y, k, c) {
      var s: nat :| LiveSlot(y, s) && y.ids[s] == k && CodeOf(y, s) == c;
      assert s in slots <==> x.ids[s] == id;
      if k != id { assert LiveSlot(x, s); }
    }
    if k == id && c == code {
      var s := slots[0];
      assert s in slots && LiveSlot(y, s);
    }
    if k != id && Stores(x, k, c) {
      var s: nat :| LiveSlot(x, s) && x.ids[s] == k && CodeOf(x, s) == c;
      assert s !in slots && LiveSlot(y, s);
    }
  }

  lemma InsertKeepsOneCode(x: BqImage, y: BqImage, id: Id, code: seq<bv8>)
    requires Valid(x) && OneCodePerId(x) && Upserted(x, y, id, code)
    ensures |y.ids| == y.rows && Aligned(y.codes, y.stride, y.rows) && OneCodePerId(y)
  {
    hide Record, Aligned, IsSet;
    var slots := SlotsWith(x.ids, id);
    forall s, t | 0 <= s < |y.ids| && 0 <= t < |y.ids| && y.ids[s] == y.ids[t] ensures CodeOf(y, s) == CodeOf(y, t) {
      if slots != [] {
        assert s in slots <==> x.ids[s] == id;
        assert t in slots <==> x.ids[t] == id;
      } else {
        assert s < x.rows ==> x.ids[s] != id;
        assert t < x.rows ==> x.ids[t] != id;
      }
    }
  }

  // ---------------------------------------------------------------- insert, step by step

  datatype InsertOutcome = Written | NotOneBit | DimMismatch | MeanMissing | RowCountDrift

  function InsertDim(x: BqImage, valueDim: nat): nat {
    if x.dim == 0 && x.rows == 0 then valueDim else x.dim
  }

  /** An empty index without a pinned dimension takes the row's, and zeros for its mean. */
  function InsertMean(x: BqImage, dim: nat): seq<int> {
    if x.dim == 0 && x.rows == 0 then seq(dim, _ => 0) else x.mean
  }

  /** The mean of an empty index is its first row exactly when that row is zero. */
  lemma MeanSeededIff(x: BqImage, value: seq<int>)
    requires x.dim == 0 && x.rows == 0
    ensures InsertMean(x, |value|) == value <==> forall j :: 0 <= j < |value| ==> value[j] == 0
  {
    if InsertMean(x, |value|) == value {
      forall j | 0 <= j < |value| ensures value[j] == 0 { assert InsertMean(x, |value|)[j] == 0; }
    }
  }

  /** The sign code of a centred row: which elements are above zero. */
  ghost predicate IsCode(code: seq<bv8>, centered: seq<int>) {
    && |code| == BytesFor(|centered|)
    && forall j: nat :: j < 8 * |code| ==> (At(code, j) <==> j < |centered| && centered[j] > 0)
  }

  /** The chains have as many rows as the meta page says. */
  predicate CountsAgree(x: BqImage) {
    |x.ids| == x.rows && (x.stride > 0 ==> |x.codes| == Offset(x.stride, x.rows))
  }

  /** The index after one inserted row, with code `code`. */
  ghost predicate InsertedAs(x: BqImage, y: BqImage, value: seq<int>, id: Id, code: seq<bv8>) {
    var base := x.(stride := BytesFor(|value|));
    && IsCode(code, Centered(value, InsertMean(x, |value|)))
    && |base.ids| == base.rows && Aligned(base.codes, base.stride, base.rows) && Upserted(base, y, id, code)
    && y.isBq && y.dim == |value| && y.lists == x.lists && !y.cells && y.version == x.version + 1
    && y.mean == InsertMean(x, |value|)
  }

  /** `center`: no mean means no centring; else element by element, as far as both reach. */
  function Centered(v: seq<int>, mean: seq<int>): (r: seq<int>)
    ensures mean == [] ==> r == v
    ensures mean != [] ==>
              |r| == (if |v| < |mean| then |v| else |mean|) && forall i :: 0 <= i < |r| ==> r[i] == v[i] - mean[i]
  {
    if mean == [] then v else
      var n := if |v| < |mean| then |v| else |mean|;
      seq(n, i requires 0 <= i < n => v[i] - mean[i])
  }

  /** Finds the slots holding the id by a pass over the id table. */
  method ExistingSlots(ids: seq<Id>, id: Id) returns (slots: seq<nat>)
    ensures slots == SlotsWith(ids, id)
  {
    slots := [];
    for s := 0 to |ids|
      invariant slots == SlotsWith(ids[..s], id)
    {
      assert ids[..s + 1][..s] == ids[..s];
      if ids[s] == id {
        slots := slots + [s];
      }
    }
    assert ids[..|ids|] == ids;
  }

  /** Overwrites each listed slot's code and clears its tombstone. */
  method RewriteSlots(x: BqImage, slots: seq<nat>, code: seq<bv8>) returns (y: BqImage)
    requires |x.ids| == x.rows && Aligned(x.codes, x.stride, x.rows) && |code| == x.stride
    requires forall i :: 0 <= i < |slots| ==> slots[i] < x.rows
    ensures y == x.(codes := y.codes, dead := y.dead) && Rewritten(x, y, slots, code)
  {
    hide Record, Offset, IsSet, Unmark;
    var codes, dead := x.codes, x.dead;
    for i := 0 to |slots|
      invariant Aligned(codes, x.stride, x.rows) && |dead| == |x.dead|
      invariant Rewritten(x, x.(codes := codes, dead := dead), slots[..i], code)
    {
      var at := Offset(x.stride, slots[i]);
      RewriteStep(x, codes, dead, slots, i, code);
      codes := Overwrite(codes, at, code);
      dead := Unmark(dead, slots[i]);
    }
    assert slots[..|slots|] == slots;
    y := x.(codes := codes, dead := dead);
  }

  lemma RewriteStep(x: BqImage, codes: seq<bv8>, dead: seq<bv8>, slots: seq<nat>, i: nat, code: seq<bv8>)
    requires |x.ids| == x.rows && Aligned(x.codes, x.stride, x.rows) && |code| == x.stride && i < |slots|
             && slots[i] < x.rows
    requires Rewritten(x, x.(codes := codes, dead := dead), slots[..i], code)
    ensures Offset(x.stride, slots[i]) + |code| <= |codes|
    ensures Rewritten(x,
              x.(codes := Overwrite(codes, Offset(x.stride, slots[i]), code), dead := Unmark(dead, slots[i])),
              slots[..i + 1], code)
  {
    OverwriteAligned(codes, x.stride, x.rows, slots[i], code);
    var out, revived := Overwrite(codes, Offset(x.stride, slots[i]), code), Unmark(dead, slots[i]);
    var y, z := x.(codes := codes, dead := dead), x.(codes := out, dead := revived);
    hide Record, Offset, Aligned, IsSet, Unmark, Overwrite;
    forall s | 0 <= s < x.rows ensures CodeOf(z, s) == if s in slots[..i + 1] then code else CodeOf(x, s) {
      OverwriteRecordAt(codes, x.stride, x.rows, slots[i], code, out, s);
      InPrefix(slots, i, s);
      assert CodeOf(y, s) == if s in slots[..i] then code else CodeOf(x, s);
    }
    forall s: nat ensures IsSet(revived, s) <==> (s !in slots[..i + 1] && IsSet(x.dead, s)) {
      InPrefix(slots, i, s);
    }
  }

  lemma InPrefix(slots: seq<nat>, i: nat, s: nat)
    requires i < |slots|
    ensures s in slots[..i + 1] <==> s in slots[..i] || s == slots[i]
  {
    assert slots[..i + 1] == slots[..i] + [slots[i]];
  }

  /** Appends the row; a bitmap that exists grows with it. */
  method AppendRow(x: BqImage, id: Id, code: seq<bv8>) returns (y: BqImage)
    requires |x.ids| == x.rows && Aligned(x.codes, x.stride, x.rows) && |code| == x.stride
             && PaddingClear(x.dead, x.rows)
    ensures y == x.(codes := x.codes + code, ids := x.ids + [id], rows := x.rows + 1, dead := y.dead)
    ensures Appended(x, y, id, code) && PaddingClear(y.dead, y.rows)
  {
    var dead := if x.dead == [] then x.dead else Resize(x.dead, BytesFor(|x.ids| + 1));
    y := x.(codes := x.codes + code, ids := x.ids + [id], rows := x.rows + 1, dead := dead);
    AppendAligned(x.codes, x.stride, x.rows, code);
    forall s | 0 <= s < |y.ids| ensures CodeOf(y, s) == if s == x.rows then code else CodeOf(x, s) {
      AppendRecordAt(x.codes, x.stride, x.rows, code, s);
    }
    forall s: nat | s < |x.ids| ensures IsSet(y.dead, s) <==> IsSet(x.dead, s) {
      assert s / 8 < BytesFor(|x.ids| + 1);
    }
    hide Record, Offset, IsSet, Resize;
  }

  class BqRelation {
    var image: BqImage

    constructor (image: BqImage)
      ensures this.image == image
    {
      this.image := image;
    }

    /** One inserted row (`value` is already normalised if it has to be). On success the live view is
        updated like a map; the bitmap goes out with the same write, cell metadata does not. */
    method InsertRow(value: seq<int>, id: Id) returns (r: InsertOutcome, ghost code: seq<bv8>)
      requires |value| > 0 && PaddingClear(image.dead, image.rows)
      requires image.rows == 0 ==> image.codes == []
      requires image.rows > 0 ==> image.stride == BytesFor(image.dim)
      modifies this
      ensures r != Written ==> image == old(image)
      ensures r == NotOneBit <==> !old(image).isBq
      ensures r == DimMismatch <==> old(image).isBq && |value| != InsertDim(old(image), |value|)
      ensures r == MeanMissing <==>
                && old(image).isBq && |value| == InsertDim(old(image), |value|)
                && |InsertMean(old(image), |value|)| != |value|
      ensures r == RowCountDrift <==>
                && old(image).isBq && |value| == InsertDim(old(image), |value|)
                && |InsertMean(old(image), |value|)| == |value| && !CountsAgree(old(image))
      ensures r == Written ==> CountsAgree(old(image)) && InsertedAs(old(image), image, value, id, code)
      ensures r == Written ==> Valid(image)
      ensures r == Written ==>
                && image.isBq && image.dim == |value| && image.lists == old(image).lists && !image.cells
                && image.version == old(image).version + 1
                && (old(image).dim > 0 || old(image).rows > 0 ==> image.mean == old(image).mean)
                && (old(image).dim == 0 && old(image).rows == 0 ==>
                      forall j :: 0 <= j < |image.mean| ==> image.mean[j] == 0)
    {
      code := [];
      if !image.isBq {
        return NotOneBit, code;
      }
      var unpinned := image.dim == 0 && image.rows == 0;
      var dim := if unpinned then |value| else image.dim;
      if |value| != dim {
        return DimMismatch, code;
      }
      var mean := if unpinned then seq(dim, _ => 0) else image.mean;
      if |mean| != dim {
        return MeanMissing, code;
      }
      if |image.ids| != image.rows || (image.stride > 0 && |image.codes| != Offset(image.stride, image.rows)) {
        return RowCountDrift, code;
      }
      hide PaddingClear, Offset, InsertedAs, Valid;
      ghost var before := image;
      image, code := Inserted(image, value, id, mean);
      r := Written;
      InsertedShape(before, image, value, id, code);
    }
  }

  lemma InsertedShape(x: BqImage, y: BqImage, value: seq<int>, id: Id, code: seq<bv8>)
    requires InsertedAs(x, y, value, id, code)
    ensures y.isBq && y.dim == |value| && y.lists == x.lists && !y.cells && y.version == x.version + 1
    ensures x.dim > 0 || x.rows > 0 ==> y.mean == x.mean
    ensures x.dim == 0 && x.rows == 0 ==> forall j :: 0 <= j < |y.mean| ==> y.mean[j] == 0
  {
  }

  method Inserted(x: BqImage, value: seq<int>, id: Id, mean: seq<int>) returns (y: BqImage, code: seq<bv8>)
    requires x.isBq && CountsAgree(x) && PaddingClear(x.dead, x.rows) && (x.rows == 0 ==> x.codes == [])
    requires |value| == InsertDim(x, |value|) && |value| > 0 && mean == InsertMean(x, |value|) && |mean| == |value|
    requires x.rows > 0 ==> x.stride == BytesFor(x.dim)
    ensures InsertedAs(x, y, value, id, code)
    ensures Valid(y)
  {
    code := PackSigns(Centered(value, mean));
    assert IsCode(code, Centered(value, mean));
    var slots := ExistingSlots(x.ids, id);
    var base := x.(stride := BytesFor(|value|));
    assert Aligned(base.codes, base.stride, base.rows) by { BaseAligned(x, |value|); }
    hide PaddingClear, Aligned, IsCode, SlotsWith, Upserted;
    var z := ApplyInsert(base, slots, id, code);
    y := z.(dim := |value|, mean := mean, cells := false, version := x.version + 1);
    assert Upserted(base, y, id, code) by { SameUpsert(base, z, y, id, code); }
  }

  lemma BaseAligned(x: BqImage, dim: nat)
    requires CountsAgree(x) && (x.rows == 0 ==> x.codes == []) && dim == InsertDim(x, dim) && dim > 0
    requires x.rows > 0 ==> x.stride == BytesFor(x.dim)
    ensures Aligned(x.codes, BytesFor(dim), x.rows)
  {
  }

  lemma SameUpsert(x: BqImage, y: BqImage, z: BqImage, id: Id, code: seq<bv8>)
    requires |x.ids| == x.rows && Aligned(x.codes, x.stride, x.rows) && Upserted(x, y, id, code)
    requires z.ids == y.ids && z.rows == y.rows && z.codes == y.codes && z.dead == y.dead && z.stride == y.stride
    ensures Upserted(x, z, id, code)
  {
    hide Record, Aligned, IsSet, SlotsWith;
  }

  method ApplyInsert(x: BqImage, slots: seq<nat>, id: Id, code: seq<bv8>) returns (y: BqImage)
    requires |x.ids| == x.rows && Aligned(x.codes, x.stride, x.rows) && |code| == x.stride
             && PaddingClear(x.dead, x.rows)
    requires slots == SlotsWith(x.ids, id)
    ensures y == x.(codes := y.codes, ids := y.ids, rows := y.rows, dead := y.dead)
    ensures Upserted(x, y, id, code)
    ensures |y.ids| == y.rows && Aligned(y.codes, y.stride, y.rows) && PaddingClear(y.dead, y.rows)
  {
    if slots == [] {
      y := AppendRow(x, id, code);
    } else {
      y := RewriteSlots(x, slots, code);
    }
  }
}
