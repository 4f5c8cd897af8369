/** Fixed-stride records laid end to end in one flat buffer: the packed-codes chain, the
    temporary spill file and the gathered compact codes all have this shape. */
module Slots {

  /** Where record `i` starts: `i * stride`, kept in additive form. */
  function Offset(stride: nat, i: nat): nat {
    if i == 0 then 0 else Offset(stride, i - 1) + stride
  }

  lemma {:induction false} OffsetIsProduct(stride: nat, i: nat)
    ensures Offset(stride, i) == i * stride
  {
    if i > 0 {
      OffsetIsProduct(stride, i - 1);
      assert i * stride == (i - 1) * stride + stride;
    }
  }

  lemma {:induction false} OffsetAdd(stride: nat, a: nat, b: nat)
    ensures Offset(stride, a + b) == Offset(stride, a) + Offset(stride, b)
  {
    if b > 0 { OffsetAdd(stride, a, b - 1); }
  }

  /** A record lies before the start of every later one. */
  lemma OffsetMono(stride: nat, i: nat, n: nat)
    requires i <= n
    ensures Offset(stride, i) <= Offset(stride, n)
    ensures i < n ==> Offset(stride, i) + stride <= Offset(stride, n)
  {
    OffsetAdd(stride, i, n - i);
    if i < n { OffsetAdd(stride, i + 1, n - i - 1); }
  }

  /** The buffer holds exactly `n` records of `stride` elements. */
  predicate Aligned<T>(buf: seq<T>, stride: nat, n: nat) {
    |buf| == Offset(stride, n)
  }

  /** Record `i` of an aligned buffer. */
  function Record<T>(buf: seq<T>, stride: nat, n: nat, i: nat): (r: seq<T>)
    requires Aligned(buf, stride, n) && i < n
    ensures |r| == stride
  {
    OffsetMono(stride, i, n);
    buf[Offset(stride, i)..Offset(stride, i) + stride]
  }

  /** The buffer read as a table of records. */
  function Records<T>(buf: seq<T>, stride: nat, n: nat): (r: seq<seq<T>>)
    requires Aligned(buf, stride, n)
    ensures |r| == n
    ensures forall i :: 0 <= i < n ==> r[i] == Record(buf, stride, n, i)
  {
    seq(n, i requires 0 <= i < n => Record(buf, stride, n, i))
  }

  /** `row` written over the elements starting at `at`. */
  function Overwrite<T>(buf: seq<T>, at: nat, row: seq<T>): (r: seq<T>)
    requires at + |row| <= |buf|
    ensures |r| == |buf|
    ensures forall j :: 0 <= j < |buf| ==> r[j] == if at <= j < at + |row| then row[j - at] else buf[j]
  {
    buf[..at] + row + buf[at + |row|..]
  }

  lemma SameSlice<T>(a: seq<T>, b: seq<T>, i: nat, j: nat, n: nat)
    requires i + n <= |a| && j + n <= |b|
    requires forall t :: i <= t < i + n ==> a[t] == b[t - i + j]
    ensures a[i..i + n] == b[j..j + n]
  {
    var x, y := a[i..i + n], b[j..j + n];
    forall t | 0 <= t < n ensures x[t] == y[t] {
      assert x[t] == a[i + t];
    }
  }

  lemma AppendAligned<T>(buf: seq<T>, stride: nat, n: nat, row: seq<T>)
    requires Aligned(buf, stride, n) && |row| == stride
    ensures Aligned(buf + row, stride, n + 1)
  {
  }

  lemma AppendRecordAt<T>(buf: seq<T>, stride: nat, n: nat, row: seq<T>, i: nat)
    requires Aligned(buf, stride, n) && Aligned(buf + row, stride, n + 1) && |row| == stride && i <= n
    ensures Record(buf + row, stride, n + 1, i) == if i == n then row else Record(buf, stride, n, i)
  {
    assert Offset(stride, n + 1) == Offset(stride, n) + stride;
    hide Offset;
    OffsetMono(stride, i, n);
    if i < n { SameSlice(buf + row, buf, Offset(stride, i), Offset(stride, i), stride); }
  }

  lemma AppendRecord<T>(buf: seq<T>, stride: nat, n: nat, row: seq<T>)
    requires Aligned(buf, stride, n) && |row| == stride
    ensures Aligned(buf + row, stride, n + 1)
    ensures Records(buf + row, stride, n + 1) == Records(buf, stride, n) + [row]
  {
    AppendAligned(buf, stride, n, row);
    hide *;
    var got, want := Records(buf + row, stride, n + 1), Records(buf, stride, n) + [row];
    forall i | 0 <= i < n + 1 ensures got[i] == want[i] { AppendRecordAt(buf, stride, n, row, i); }
  }

  lemma OverwriteAligned<T>(buf: seq<T>, stride: nat, n: nat, i: nat, row: seq<T>)
    requires Aligned(buf, stride, n) && i < n && |row| == stride
    ensures Offset(stride, i) + stride <= |buf|
    ensures Aligned(Overwrite(buf, Offset(stride, i), row), stride, n)
  {
    hide Offset;
    OffsetMono(stride, i, n);
  }

  lemma OverwriteRecordAt<T>(buf: seq<T>, stride: nat, n: nat, i: nat, row: seq<T>, out: seq<T>, j: nat)
    requires Aligned(buf, stride, n) && i < n && |row| == stride && j < n
    requires Offset(stride, i) + stride <= |buf| && out == Overwrite(buf, Offset(stride, i), row)
             && Aligned(out, stride, n)
    ensures Record(out, stride, n, j) == if j == i then row else Record(buf, stride, n, j)
  {
    hide Offset;
    OffsetMono(stride, j, n);
    if j < i { OffsetMono(stride, j, i); }
    if i < j { OffsetMono(stride, i, j); }
    if j == i {
      assert out[Offset(stride, i)..Offset(stride, i) + stride] == row;
    } else {
      SameSlice(out, buf, Offset(stride, j), Offset(stride, j), stride);
    }
  }

  lemma OverwriteRecord<T>(buf: seq<T>, stride: nat, n: nat, i: nat, row: seq<T>)
    requires Aligned(buf, stride, n) && i < n && |row| == stride
    ensures Offset(stride, i) + stride <= |buf|
    ensures Aligned(Overwrite(buf, Offset(stride, i), row), stride, n)
    ensures Records(Overwrite(buf, Offset(stride, i), row), stride, n) == Records(buf, stride, n)[i := row]
  {
    OverwriteAligned(buf, stride, n, i, row);
    hide *;
    var out := Overwrite(buf, Offset(stride, i), row);
    var got, want := Records(out, stride, n), Records(buf, stride, n)[i := row];
    forall j | 0 <= j < n ensures got[j] == want[j] { OverwriteRecordAt(buf, stride, n, i, row, out, j); }
  }

  lemma SliceBounds<T>(buf: seq<T>, stride: nat, n: nat, lo: nat, hi: nat)
    requires Aligned(buf, stride, n) && lo <= hi <= n
    ensures Offset(stride, lo) <= Offset(stride, hi) <= |buf|
    ensures Offset(stride, hi) - Offset(stride, lo) == Offset(stride, hi - lo)
  {
    hide Offset;
    OffsetMono(stride, hi, n);
    OffsetAdd(stride, lo, hi - lo);
    assert lo + (hi - lo) == hi;
  }

  lemma SliceAligned<T>(buf: seq<T>, stride: nat, n: nat, lo: nat, hi: nat)
    requires Aligned(buf, stride, n) && lo <= hi <= n
    ensures Offset(stride, lo) <= Offset(stride, hi) <= |buf|
    ensures Aligned(buf[Offset(stride, lo)..Offset(stride, hi)], stride, hi - lo)
  {
    SliceBounds(buf, stride, n, lo, hi);
    hide Offset;
  }

  lemma SliceRecordAt<T>(buf: seq<T>, cut: seq<T>, stride: nat, n: nat, lo: nat, hi: nat, j: nat)
    requires Aligned(buf, stride, n) && lo <= hi <= n && j < hi - lo
    requires Offset(stride, lo) <= Offset(stride, hi) <= |buf| && cut == buf[Offset(stride, lo)..Offset(stride, hi)]
    requires Aligned(cut, stride, hi - lo)
    ensures Record(cut, stride, hi - lo, j) == Record(buf, stride, n, lo + j)
  {
    hide Offset;
    OffsetMono(stride, j, hi - lo);
    OffsetMono(stride, lo + j, n);
    OffsetAdd(stride, lo, j);
    SameSlice(cut, buf, Offset(stride, j), Offset(stride, lo + j), stride);
  }

  /** A slice taken on record boundaries is the slice of the table. */
  lemma SliceRecords<T>(buf: seq<T>, stride: nat, n: nat, lo: nat, hi: nat)
    requires Aligned(buf, stride, n) && lo <= hi <= n
    ensures Offset(stride, lo) <= Offset(stride, hi) <= |buf|
    ensures Aligned(buf[Offset(stride, lo)..Offset(stride, hi)], stride, hi - lo)
    ensures Records(buf[Offset(stride, lo)..Offset(stride, hi)], stride, hi - lo) == Records(buf, stride, n)[lo..hi]
  {
    SliceAligned(buf, stride, n, lo, hi);
    hide *;
    var cut := buf[Offset(stride, lo)..Offset(stride, hi)];
    var got, want := Records(cut, stride, hi - lo), Records(buf, stride, n)[lo..hi];
    forall j | 0 <= j < hi - lo ensures got[j] == want[j] { SliceRecordAt(buf, cut, stride, n, lo, hi, j); }
  }

  lemma ConcatRecordAt<T>(a: seq<T>, b: seq<T>, stride: nat, n: nat, m: nat, i: nat)
    requires Aligned(a, stride, n) && Aligned(b, stride, m) && Aligned(a + b, stride, n + m) && i < n + m
    ensures Record(a + b, stride, n + m, i) == if i < n then Record(a, stride, n, i) else Record(b, stride, m, i - n)
  {
    hide Offset;
    OffsetMono(stride, i, n + m);
    if i < n {
      OffsetMono(stride, i, n);
      SameSlice(a + b, a, Offset(stride, i), Offset(stride, i), stride);
    } else {
      OffsetMono(stride, i - n, m);
      OffsetAdd(stride, n, i - n);
      SameSlice(a + b, b, Offset(stride, i), Offset(stride, i - n), stride);
    }
  }

  lemma ConcatRecords<T>(a: seq<T>, b: seq<T>, stride: nat, n: nat, m: nat)
    requires Aligned(a, stride, n) && Aligned(b, stride, m)
    ensures Aligned(a + b, stride, n + m)
    ensures Records(a + b, stride, n + m) == Records(a, stride, n) + Records(b, stride, m)
  {
    OffsetAdd(stride, n, m);
    assert Aligned(a + b, stride, n + m);
    hide *;
    var got, want := Records(a + b, stride, n + m), Records(a, stride, n) + Records(b, stride, m);
    forall i | 0 <= i < n + m ensures got[i] == want[i] { ConcatRecordAt(a, b, stride, n, m, i); }
  }
}
