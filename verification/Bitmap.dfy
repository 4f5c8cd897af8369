/** The per-slot tombstone bitmap: one bit per slot, least significant bit first, a set bit
    marks a dead slot. A slot past the end of the bitmap is live. */
module Bitmap {

  /** `1 << i` for a bit index inside a byte. */
  function MaskOf(i: nat): bv8
    requires i < 8
  {
    if i == 0 then 1 else if i == 1 then 2 else if i == 2 then 4 else if i == 3 then 8
    else if i == 4 then 16 else if i == 5 then 32 else if i == 6 then 64 else 128
  }

  predicate Bit(b: bv8, i: nat) {
    i < 8 && b & MaskOf(i) != 0
  }

  /** The mask test is the shift test `(b >> i) & 1`. */
  lemma ShiftTest(b: bv8, i: nat)
    requires i < 8
    ensures Bit(b, i) <==> (b >> i) & 1 == 1
    ensures MaskOf(i) == (1 as bv8) << i
  {
    if i == 0 { assert (b & 1 != 0) <==> (b >> 0) & 1 == 1; }
    else if i == 1 { assert (b & 2 != 0) <==> (b >> 1) & 1 == 1; }
    else if i == 2 { assert (b & 4 != 0) <==> (b >> 2) & 1 == 1; }
    else if i == 3 { assert (b & 8 != 0) <==> (b >> 3) & 1 == 1; }
    else if i == 4 { assert (b & 16 != 0) <==> (b >> 4) & 1 == 1; }
    else if i == 5 { assert (b & 32 != 0) <==> (b >> 5) & 1 == 1; }
    else if i == 6 { assert (b & 64 != 0) <==> (b >> 6) & 1 == 1; }
    else { assert (b & 128 != 0) <==> (b >> 7) & 1 == 1; }
  }

  /** The test every scan path applies to a slot. */
  predicate IsSet(bm: seq<bv8>, slot: nat) {
    slot / 8 < |bm| && Bit(bm[slot / 8], slot % 8)
  }

  /** Eight slots to a byte, the lowest slot in the lowest bit. */
  lemma IsSetLayout(bm: seq<bv8>, k: nat, i: nat)
    requires i < 8
    ensures IsSet(bm, 8 * k + i) <==> k < |bm| && (bm[k] >> i) & 1 == 1
  {
    assert (8 * k + i) / 8 == k && (8 * k + i) % 8 == i;
    if k < |bm| { ShiftTest(bm[k], i); }
    hide Bit;
  }

  /** Setting or clearing bit `i` leaves every other bit alone. */
  lemma SetOneBit(b: bv8, i: nat, j: nat)
    requires i < 8 && j < 8
    ensures Bit(b | MaskOf(i), j) <==> (j == i || Bit(b, j))
  {
  }

  lemma ClearOneBit(b: bv8, i: nat, j: nat)
    requires i < 8 && j < 8
    ensures Bit(b & !MaskOf(i), j) <==> (j != i && Bit(b, j))
  {
  }

  function ByteSet(b: bv8, i: nat): (r: bv8)
    requires i < 8
    ensures forall j: nat :: Bit(r, j) <==> (j == i || Bit(b, j))
  {
    var r := b | MaskOf(i);
    assert forall j: nat :: Bit(r, j) <==> (j == i || Bit(b, j)) by {
      forall j: nat ensures Bit(r, j) <==> (j == i || Bit(b, j)) {
        if j < 8 { SetOneBit(b, i, j); }
      }
    }
    r
  }

  function ByteClear(b: bv8, i: nat): (r: bv8)
    requires i < 8
    ensures forall j: nat :: Bit(r, j) <==> (j != i && Bit(b, j))
  {
    var r := b & !MaskOf(i);
    assert forall j: nat :: Bit(r, j) <==> (j != i && Bit(b, j)) by {
      forall j: nat ensures Bit(r, j) <==> (j != i && Bit(b, j)) {
        if j < 8 { ClearOneBit(b, i, j); }
      }
    }
    r
  }

  /** Bytes needed to hold `n` bits. */
  function BytesFor(n: nat): (r: nat)
    ensures 8 * (r - 1) < n <= 8 * r
  {
    (n + 7) / 8
  }

  /** Tombstone one slot. */
  function Mark(bm: seq<bv8>, slot: nat): (r: seq<bv8>)
    requires slot / 8 < |bm|
    ensures |r| == |bm|
    ensures forall t: nat :: IsSet(r, t) <==> (t == slot || IsSet(bm, t))
  {
    bm[slot / 8 := ByteSet(bm[slot / 8], slot % 8)]
  }

  /** Revive one slot; a slot past the end is live already. */
  function Unmark(bm: seq<bv8>, slot: nat): (r: seq<bv8>)
    ensures |r| == |bm|
    ensures forall t: nat :: IsSet(r, t) <==> (t != slot && IsSet(bm, t))
  {
    if slot / 8 < |bm| then bm[slot / 8 := ByteClear(bm[slot / 8], slot % 8)] else bm
  }

  lemma ZeroByte(j: nat)
    ensures !Bit(0, j)
  {
  }

  lemma NonzeroByte(b: bv8) returns (j: nat)
    requires b != 0
    ensures j < 8 && Bit(b, j)
  {
    j := if Bit(b, 0) then 0 else if Bit(b, 1) then 1 else if Bit(b, 2) then 2 else if Bit(b, 3) then 3
         else if Bit(b, 4) then 4 else if Bit(b, 5) then 5 else if Bit(b, 6) then 6 else 7;
  }

  /** Grow with live bits, or cut, to `nBytes` bytes. */
  function Resize(bm: seq<bv8>, nBytes: nat): (r: seq<bv8>)
    ensures |r| == nBytes
    ensures forall t: nat :: IsSet(r, t) <==> (t / 8 < nBytes && IsSet(bm, t))
  {
    if nBytes <= |bm| then bm[..nBytes] else
      var r := bm + seq(nBytes - |bm|, _ => 0 as bv8);
      assert forall t: nat :: IsSet(r, t) <==> (t / 8 < nBytes && IsSet(bm, t)) by {
        forall t: nat ensures IsSet(r, t) <==> (t / 8 < nBytes && IsSet(bm, t)) {
          if |bm| <= t / 8 < nBytes { ZeroByte(t % 8); }
        }
      }
      r
  }

  predicate AllZero(bm: seq<bv8>) {
    forall i :: 0 <= i < |bm| ==> bm[i] == 0
  }

  /** The byte test for "no tombstones" agrees with the bit test. */
  lemma AllZeroIffNoneSet(bm: seq<bv8>)
    ensures AllZero(bm) <==> forall t: nat :: !IsSet(bm, t)
  {
    if AllZero(bm) {
      forall t: nat ensures !IsSet(bm, t) { ZeroByte(t % 8); }
    } else {
      var i :| 0 <= i < |bm| && bm[i] != 0;
      var j := NonzeroByte(bm[i]);
      assert IsSet(bm, 8 * i + j);
    }
  }

  /** No bit is set at or past `n`, so a slot appended later is born live. */
  ghost predicate PaddingClear(bm: seq<bv8>, n: nat) {
    forall t: nat :: n <= t ==> !IsSet(bm, t)
  }
}
