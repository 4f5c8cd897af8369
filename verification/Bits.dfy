/** Packed bits, most significant bit of each byte first: byte-wise counting against bit-by-bit counting. */
module Bits {
  import opened Bitmap

  /** Bit `i` of the packed sequence. */
  predicate At(bytes: seq<bv8>, i: nat)
    requires i / 8 < |bytes|
  {
    Bit(bytes[i / 8], 7 - i % 8)
  }

  function One(b: bool): nat { if b then 1 else 0 }

  /** How many of the first `n` bits are set, bit by bit. */
  function CountTo(bytes: seq<bv8>, n: nat): (r: nat)
    requires n <= 8 * |bytes|
    ensures r <= n
  {
    if n == 0 then 0 else CountTo(bytes, n - 1) + One(At(bytes, n - 1))
  }

  /** `count_ones` of one byte: its bits from the most significant down, the first `n` of them. */
  function OnesFrom(b: bv8, n: nat): (r: nat)
    requires n <= 8
    ensures r <= n
  {
    if n == 0 then 0 else OnesFrom(b, n - 1) + One(Bit(b, 8 - n))
  }

  function CountOnes(b: bv8): nat { OnesFrom(b, 8) }

  function SumOnes(bytes: seq<bv8>): nat {
    if bytes == [] then 0 else SumOnes(bytes[..|bytes| - 1]) + CountOnes(bytes[|bytes| - 1])
  }

  lemma AtInByte(bytes: seq<bv8>, k: nat, j: nat)
    requires k < |bytes| && j < 8
    ensures (8 * k + j) / 8 == k && At(bytes, 8 * k + j) == Bit(bytes[k], 7 - j)
  {
    hide Bit;
    assert (8 * k + j) / 8 == k && (8 * k + j) % 8 == j;
  }

  lemma CountStep(bytes: seq<bv8>, n: nat)
    requires n < 8 * |bytes|
    ensures CountTo(bytes, n + 1) == CountTo(bytes, n) + One(At(bytes, n))
  {
    hide At;
  }

  lemma {:induction false} CountInByte(bytes: seq<bv8>, k: nat, n: nat)
    requires k < |bytes| && n <= 8
    ensures CountTo(bytes, 8 * k + n) == CountTo(bytes, 8 * k) + OnesFrom(bytes[k], n)
  {
    hide At, Bit, CountTo;
    if n > 0 {
      CountInByte(bytes, k, n - 1);
      AtInByte(bytes, k, n - 1);
      CountStep(bytes, 8 * k + (n - 1));
      assert 8 * k + (n - 1) + 1 == 8 * k + n;
    }
  }

  lemma {:induction false} CountPrefix(a: seq<bv8>, b: seq<bv8>, n: nat)
    requires n <= 8 * |a|
    ensures CountTo(a + b, n) == CountTo(a, n)
  {
    if n > 0 { CountPrefix(a, b, n - 1); }
  }

  /** Adding up whole bytes counts every bit once. */
  lemma {:induction false} SumIsCount(bytes: seq<bv8>)
    ensures SumOnes(bytes) == CountTo(bytes, 8 * |bytes|)
  {
    if bytes != [] {
      var n := |bytes| - 1;
      SumIsCount(bytes[..n]);
      assert bytes == bytes[..n] + bytes[n..];
      CountPrefix(bytes[..n], bytes[n..], 8 * n);
      CountInByte(bytes, n, 8);
    }
  }

  /** Any way of cutting the bytes into groups gives the same total. */
  lemma {:induction false} SumJoin(a: seq<bv8>, b: seq<bv8>)
    ensures SumOnes(a + b) == SumOnes(a) + SumOnes(b)
  {
    if b == [] {
      assert a + b == a;
    } else {
      SumJoin(a, b[..|b| - 1]);
      assert (a + b)[..|a + b| - 1] == a + b[..|b| - 1];
    }
  }

  // ---------------------------------------------------------------- the unused tail of the last byte

  /** `(1 << (8 - tail)) - 1`: the bits of the last byte past the end. */
  function TailMask(tail: nat): bv8
    requires 0 < tail < 8
  {
    MaskOf(8 - tail) - 1
  }

  lemma TailBit(b: bv8, tail: nat, i: nat)
    requires 0 < tail < 8 && i < 8
    ensures Bit(b & TailMask(tail), i) <==> Bit(b, i) && i < 8 - tail
  {
    if tail == 1 {
    } else if tail == 2 {
    } else if tail == 3 {
    } else if tail == 4 {
    } else if tail == 5 {
    } else if tail == 6 {
    } else {
    }
  }

  lemma {:induction false} OnesSplit(b: bv8, tail: nat, n: nat)
    requires 0 < tail < 8 && n <= 8
    ensures OnesFrom(b, n) == OnesFrom(b, if n < tail then n else tail) + OnesFrom(b & TailMask(tail), n)
  {
    hide TailMask, Bit;
    if n > 0 {
      OnesSplit(b, tail, n - 1);
      TailBit(b, tail, 8 - n);
    }
  }

  /** Subtracting the tail's bits never underflows and leaves the count of the first `n` bits. */
  lemma TailCorrected(bytes: seq<bv8>, n: nat)
    requires n > 0 && |bytes| == BytesFor(n)
    ensures n % 8 == 0 ==> SumOnes(bytes) == CountTo(bytes, n)
    ensures n % 8 != 0 ==> SumOnes(bytes) - CountOnes(bytes[|bytes| - 1] & TailMask(n % 8)) == CountTo(bytes, n)
  {
    hide CountTo, OnesFrom, SumOnes, TailMask;
    SumIsCount(bytes);
    var k, tail := |bytes| - 1, n % 8;
    assert n == if tail == 0 then 8 * |bytes| else 8 * k + tail;
    if tail != 0 {
      CountInByte(bytes, k, tail);
      CountInByte(bytes, k, 8);
      OnesSplit(bytes[k], tail, 8);
    }
  }

  // ---------------------------------------------------------------- byte-wise combination

  datatype Op = Xor | And | Or

  function Combine(op: Op, x: bv8, y: bv8): bv8 {
    match op
    case Xor => x ^ y
    case And => x & y
    case Or => x | y
  }

  predicate Means(op: Op, p: bool, q: bool) {
    match op
    case Xor => p != q
    case And => p && q
    case Or => p || q
  }

  function Zip(op: Op, a: seq<bv8>, b: seq<bv8>): (r: seq<bv8>)
    requires |a| == |b|
    ensures |r| == |a| && forall i :: 0 <= i < |a| ==> r[i] == Combine(op, a[i], b[i])
  {
    seq(|a|, i requires 0 <= i < |a| => Combine(op, a[i], b[i]))
  }

  lemma OneBit(x: bv8, i: nat)
    requires i < 8
    ensures x & MaskOf(i) == if Bit(x, i) then MaskOf(i) else 0
    ensures MaskOf(i) != 0
  {
  }

  lemma XorMask(x: bv8, y: bv8, m: bv8)
    ensures (x ^ y) & m == (x & m) ^ (y & m)
  {
  }

  lemma SelfXor(m: bv8)
    ensures m ^ m == 0 && m ^ 0 == m && 0 ^ m == m && (0 as bv8) ^ 0 == 0
  {
  }

  lemma XorBit(x: bv8, y: bv8, i: nat)
    requires i < 8
    ensures Bit(x ^ y, i) <==> Bit(x, i) != Bit(y, i)
  {
    OneBit(x, i);
    OneBit(y, i);
    XorMask(x, y, MaskOf(i));
    SelfXor(MaskOf(i));
    assert Bit(x ^ y, i) <==> (x & MaskOf(i)) ^ (y & MaskOf(i)) != 0;
    hide MaskOf;
  }

  lemma AndBit(x: bv8, y: bv8, i: nat)
    requires i < 8
    ensures Bit(x & y, i) <==> Bit(x, i) && Bit(y, i)
  {
  }

  lemma OrBit(x: bv8, y: bv8, i: nat)
    requires i < 8
    ensures Bit(x | y, i) <==> Bit(x, i) || Bit(y, i)
  {
  }

  lemma CombineBit(op: Op, x: bv8, y: bv8, i: nat)
    requires i < 8
    ensures Bit(Combine(op, x, y), i) <==> Means(op, Bit(x, i), Bit(y, i))
  {
    hide Bit;
    match op {
      case Xor => XorBit(x, y, i);
      case And => AndBit(x, y, i);
      case Or => OrBit(x, y, i);
    }
  }

  /** Bit by bit, the byte operations are inequality, conjunction and disjunction. */
  lemma ZipAt(op: Op, a: seq<bv8>, b: seq<bv8>, i: nat)
    requires |a| == |b| && i / 8 < |a|
    ensures At(Zip(op, a, b), i) <==> Means(op, At(a, i), At(b, i))
  {
    hide Bit, Combine;
    CombineBit(op, a[i / 8], b[i / 8], 7 - i % 8);
  }

  /** How many of the first `n` positions satisfy the operation, bit by bit. */
  function CountPairs(op: Op, a: seq<bv8>, b: seq<bv8>, n: nat): (r: nat)
    requires |a| == |b| && n <= 8 * |a|
    ensures r <= n
  {
    if n == 0 then 0 else CountPairs(op, a, b, n - 1) + One(Means(op, At(a, n - 1), At(b, n - 1)))
  }

  lemma {:induction false} ZipCounts(op: Op, a: seq<bv8>, b: seq<bv8>, n: nat)
    requires |a| == |b| && n <= 8 * |a|
    ensures CountTo(Zip(op, a, b), n) == CountPairs(op, a, b, n)
  {
    if n > 0 {
      ZipCounts(op, a, b, n - 1);
      ZipAt(op, a, b, n - 1);
      hide Zip, At, Means;
    }
  }

  /** A position in both is in either; positions in both, in one only, and in either add up. */
  lemma {:induction false} PairsAddUp(a: seq<bv8>, b: seq<bv8>, n: nat)
    requires |a| == |b| && n <= 8 * |a|
    ensures CountPairs(Or, a, b, n) == CountPairs(And, a, b, n) + CountPairs(Xor, a, b, n)
    ensures CountTo(a, n) + CountTo(b, n) == CountPairs(Or, a, b, n) + CountPairs(And, a, b, n)
  {
    if n > 0 {
      PairsAddUp(a, b, n - 1);
      hide At;
    }
  }

  // ---------------------------------------------------------------- setting bits one by one

  lemma NoBits(bytes: seq<bv8>)
    requires forall i :: 0 <= i < |bytes| ==> bytes[i] == 0
    ensures forall j: nat :: j < 8 * |bytes| ==> !At(bytes, j)
  {
    forall j: nat | j < 8 * |bytes| ensures !At(bytes, j) { ZeroByte(7 - j % 8); }
  }

  lemma OrBitAt(bytes: seq<bv8>, i: nat)
    requires i / 8 < |bytes|
    ensures var out := bytes[i / 8 := bytes[i / 8] | MaskOf(7 - i % 8)];
            forall j: nat :: j < 8 * |bytes| ==> (At(out, j) <==> j == i || At(bytes, j))
  {
    var out := bytes[i / 8 := bytes[i / 8] | MaskOf(7 - i % 8)];
    forall j: nat | j < 8 * |bytes| ensures At(out, j) <==> j == i || At(bytes, j) {
      if j / 8 == i / 8 { SetOneBit(bytes[i / 8], 7 - i % 8, 7 - j % 8); }
    }
  }
}
