/** The packed `bitvec` type: counting with the unused tail masked off, and its text form. */
module Bitvec {
  import opened Options
  import opened Bitmap
  import opened Bits
  import opened Text

  const MAX_BITS: nat := 64_000

  datatype Bitvec = Bitvec(nBits: nat, bytes: seq<bv8>)

  predicate Valid(v: Bitvec) {
    1 <= v.nBits <= MAX_BITS && |v.bytes| == BytesFor(v.nBits)
  }

  function New(nBits: nat, bytes: seq<bv8>): (r: Option<Bitvec>)
    ensures r.Some? <==> 1 <= nBits <= MAX_BITS && |bytes| == BytesFor(nBits)
    ensures r.Some? ==> Valid(r.value) && r.value.bytes == bytes && r.value.nBits == nBits
  {
    if nBits < 1 || nBits > MAX_BITS then None
    else if |bytes| != BytesFor(nBits) then None
    else Some(Bitvec(nBits, bytes))
  }

  predicate BitOf(v: Bitvec, i: nat)
    requires Valid(v) && i < v.nBits
  {
    At(v.bytes, i)
  }

  // ---------------------------------------------------------------- counts

  lemma SumStep(bytes: seq<bv8>, i: nat)
    requires i < |bytes|
    ensures SumOnes(bytes[..i + 1]) == SumOnes(bytes[..i]) + CountOnes(bytes[i])
  {
    assert bytes[..i + 1][..i] == bytes[..i];
  }

  /** Whole bytes are added up and the last byte's unused bits, whatever they hold, subtracted again. */
  method Popcount(v: Bitvec) returns (count: nat)
    requires Valid(v)
    ensures count == CountTo(v.bytes, v.nBits)
  {
    var sum := 0;
    for i := 0 to |v.bytes|
      invariant sum == SumOnes(v.bytes[..i])
    {
      SumStep(v.bytes, i);
      sum := sum + CountOnes(v.bytes[i]);
    }
    assert v.bytes[..|v.bytes|] == v.bytes;
    count := DropTail(v.nBits, v.bytes, sum);
  }

  method DropTail(nBits: nat, bytes: seq<bv8>, sum: nat) returns (count: nat)
    requires nBits > 0 && |bytes| == BytesFor(nBits) && sum == SumOnes(bytes)
    ensures count == CountTo(bytes, nBits)
  {
    TailCorrected(bytes, nBits);
    count := sum;
    var tail := nBits % 8;
    if tail != 0 {
      count := count - CountOnes(bytes[|bytes| - 1] & TailMask(tail));
    }
  }

  /** `a <~> b`: the positions where they differ. */
  method HammingDistance(a: Bitvec, b: Bitvec) returns (d: Option<nat>)
    requires Valid(a) && Valid(b)
    ensures d.Some? <==> a.nBits == b.nBits
    ensures d.Some? ==> d.value == CountPairs(Xor, a.bytes, b.bytes, a.nBits)
  {
    if a.nBits != b.nBits {
      return None;
    }
    var count := CountZipped(Xor, a, b);
    d := Some(count);
  }

  method CountZipped(op: Op, a: Bitvec, b: Bitvec) returns (count: nat)
    requires Valid(a) && Valid(b) && a.nBits == b.nBits
    ensures count == CountPairs(op, a.bytes, b.bytes, a.nBits)
  {
    var sum := 0;
    ghost var all := Zip(op, a.bytes, b.bytes);
    for i := 0 to |a.bytes|
      invariant sum == SumOnes(all[..i])
    {
      SumStep(all, i);
      sum := sum + CountOnes(Combine(op, a.bytes[i], b.bytes[i]));
    }
    assert all[..|all|] == all;
    ZipCounts(op, a.bytes, b.bytes, a.nBits);
    count := DropTail(a.nBits, Zip(op, a.bytes, b.bytes), sum);
  }

  /** `a <%> b`: one minus the shared fraction of the positions set in either; 0 when none is. */
  method JaccardDistance(a: Bitvec, b: Bitvec) returns (d: Option<real>)
    requires Valid(a) && Valid(b)
    ensures d.Some? <==> a.nBits == b.nBits
    ensures d.Some? ==>
              var common := CountPairs(And, a.bytes, b.bytes, a.nBits);
              var either := CountPairs(Or, a.bytes, b.bytes, a.nBits);
              && d.value == (if either == 0 then 0.0 else 1.0 - common as real / either as real)
              && 0.0 <= d.value <= 1.0
              && (d.value == 0.0 <==> CountPairs(Xor, a.bytes, b.bytes, a.nBits) == 0)
  {
    if a.nBits != b.nBits {
      return None;
    }
    var intersection := CountZipped(And, a, b);
    var union := CountZipped(Or, a, b);
    PairsAddUp(a.bytes, b.bytes, a.nBits);
    if union == 0 {
      return Some(0.0);
    }
    Fraction(intersection, union);
    d := Some(1.0 - intersection as real / union as real);
  }

  lemma Fraction(part: nat, whole: nat)
    requires part <= whole && whole > 0
    ensures 0.0 <= part as real / whole as real <= 1.0
    ensures part as real / whole as real == 1.0 <==> part == whole
  {
  }

  // ---------------------------------------------------------------- text

  datatype Parsed = Parsed(v: Bitvec) | Empty | TooLong | BadChar(position: nat)

  /** Length in UTF-8 bytes. */
  function Utf8Len(s: string): (n: nat)
    ensures n >= |s|
    ensures n == |s| <==> forall i :: 0 <= i < |s| ==> s[i] as int < 0x80
  {
    if s == [] then 0 else
      var c := s[|s| - 1] as int;
      Utf8Len(s[..|s| - 1]) + if c < 0x80 then 1 else if c < 0x800 then 2 else if c < 0x1_0000 then 3 else 4
  }

  lemma NothingIsEmpty()
    ensures Utf8Len("") == 0
  {
  }

  predicate IsBits(s: string) {
    forall i :: 0 <= i < |s| ==> s[i] == '0' || s[i] == '1'
  }

  /** The parser sets one bit per '1' in a zeroed buffer. */
  method Input(text: string) returns (r: Parsed)
    ensures var s := Trim(text);
            && (r.Parsed? <==> s != [] && Utf8Len(s) <= MAX_BITS && IsBits(s))
            && (r.Empty? <==> s == []) && (r.TooLong? <==> Utf8Len(s) > MAX_BITS)
            && (r.BadChar? ==>
                  r.position < |s| && IsBits(s[..r.position]) && s[r.position] != '0' && s[r.position] != '1')
            && (r.Parsed? ==> Valid(r.v) && r.v.nBits == |s| && PaddingClear(r.v)
                              && forall i :: 0 <= i < |s| ==> (BitOf(r.v, i) <==> s[i] == '1'))
  {
    hide At, Utf8Len, Trim;
    var s := Trim(text);
    if s == [] {
      NothingIsEmpty();
      return Empty;
    }
    var n := Utf8Len(s);
    if n > MAX_BITS {
      return TooLong;
    }
    var bytes := new bv8[BytesFor(n)](_ => 0);
    NoBits(bytes[..]);
    for i := 0 to |s|
      invariant IsBits(s[..i])
      invariant forall j: nat :: j < 8 * bytes.Length ==> (At(bytes[..], j) <==> j < i && s[j] == '1')
    {
      if s[i] == '1' {
        SetOne(bytes, i);
      } else if s[i] != '0' {
        return BadChar(i);
      }
      assert s[..i + 1] == s[..i] + [s[i]];
    }
    assert s[..|s|] == s;
    r := Parsed(Bitvec(n, bytes[..]));
  }

  /** `bytes[i / 8] |= 1 << (7 - i % 8)`. */
  method SetOne(bytes: array<bv8>, i: nat)
    requires i / 8 < bytes.Length
    modifies bytes
    ensures forall j: nat :: j < 8 * bytes.Length ==> (At(bytes[..], j) <==> j == i || old(At(bytes[..], j)))
  {
    OrBitAt(bytes[..], i);
    ghost var before := bytes[..];
    bytes[i / 8] := bytes[i / 8] | MaskOf(7 - i % 8);
    assert bytes[..] == before[i / 8 := before[i / 8] | MaskOf(7 - i % 8)];
  }

  /** The bits of the last byte past `nBits` are 0. */
  ghost predicate PaddingClear(v: Bitvec)
    requires Valid(v)
  {
    forall j: nat :: v.nBits <= j < 8 * |v.bytes| ==> !At(v.bytes, j)
  }

  method Output(v: Bitvec) returns (s: string)
    requires Valid(v)
    ensures |s| == v.nBits && IsBits(s) && forall i :: 0 <= i < |s| ==> (s[i] == '1' <==> BitOf(v, i))
  {
    s := "";
    for i := 0 to v.nBits
      invariant |s| == i && IsBits(s) && forall j :: 0 <= j < i ==> (s[j] == '1' <==> BitOf(v, j))
    {
      var byte := v.bytes[i / 8];
      ShiftTest(byte, 7 - i % 8);
      s := s + [if (byte >> (7 - i % 8)) & 1 == 1 then '1' else '0'];
    }
  }

  lemma BitsTrimmed(s: string)
    requires IsBits(s)
    ensures Trim(s) == s && Utf8Len(s) == |s|
  {
    TrimPlain(s);
  }

  lemma {:induction false} OnesDecide(a: bv8, b: bv8)
    requires forall i :: 0 <= i < 8 ==> (Bit(a, i) <==> Bit(b, i))
    ensures a == b
  {
    if a ^ b != 0 {
      var j := NonzeroByte(a ^ b);
      XorBit(a, b, j);
    }
  }

  lemma SameBits(a: seq<bv8>, b: seq<bv8>)
    requires |a| == |b| && forall j: nat :: j < 8 * |a| ==> (At(a, j) <==> At(b, j))
    ensures a == b
  {
    hide Bit;
    forall k | 0 <= k < |a| ensures a[k] == b[k] {
      forall i | 0 <= i < 8 ensures Bit(a[k], i) <==> Bit(b[k], i) {
        AtInByte(a, k, 7 - i);
        AtInByte(b, k, 7 - i);
      }
      OnesDecide(a[k], b[k]);
    }
  }

  /** Reading back what was printed gives every bit again, and the same bytes exactly when the unused
      tail held no stray bits. */
  method PrintThenParse(v: Bitvec) returns (w: Parsed)
    requires Valid(v)
    ensures w.Parsed? && Valid(w.v) && w.v.nBits == v.nBits
    ensures forall i :: 0 <= i < v.nBits ==> (BitOf(w.v, i) <==> BitOf(v, i))
    ensures w.v == v <==> PaddingClear(v)
  {
    var s := Output(v);
    BitsTrimmed(s);
    w := Input(s);
    hide At, Trim, Utf8Len;
    if PaddingClear(v) {
      forall j: nat | j < 8 * |v.bytes| ensures At(v.bytes, j) <==> At(w.v.bytes, j) {
        if j < v.nBits { assert BitOf(w.v, j) <==> BitOf(v, j); }
      }
      SameBits(v.bytes, w.v.bytes);
    }
  }

  /** Printing what was read gives the text again, trimmed. */
  method ParseThenPrint(text: string) returns (r: Parsed, s: string)
    ensures r.Parsed? ==> s == Trim(text)
  {
    r := Input(text);
    s := "";
    if r.Parsed? { s := Output(r.v); }
  }
}
