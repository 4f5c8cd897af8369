/** Candidate slots of a scored scan: which slots a mask lets through, cut into ranges, shifted,
    and renumbered from a gathered copy back to the index. */
module Candidates {
  import opened Collections
  import opened Topk

  /** The unmasked slots in `[lo, hi)`, in slot order. */
  function HitsIn(scores: seq<int>, mask: seq<bool>, lo: nat, hi: nat): seq<Hit>
    requires hi <= |scores| && hi <= |mask|
    decreases hi
  {
    if hi <= lo then [] else
      HitsIn(scores, mask, lo, hi - 1) + if mask[hi - 1] then [Hit(scores[hi - 1], hi - 1)] else []
  }

  lemma {:induction false} HitsJoin(scores: seq<int>, mask: seq<bool>, lo: nat, mid: nat, hi: nat)
    requires lo <= mid <= hi <= |scores| && hi <= |mask|
    ensures HitsIn(scores, mask, lo, hi) == HitsIn(scores, mask, lo, mid) + HitsIn(scores, mask, mid, hi)
  {
    if mid < hi { HitsJoin(scores, mask, lo, mid, hi - 1); }
  }

  lemma {:induction false} HitsMember(scores: seq<int>, mask: seq<bool>, lo: nat, hi: nat, h: Hit)
    requires hi <= |scores| && hi <= |mask|
    ensures h in HitsIn(scores, mask, lo, hi) <==> lo <= h.slot < hi && mask[h.slot] && h.score == scores[h.slot]
    decreases hi
  {
    if lo < hi { HitsMember(scores, mask, lo, hi - 1, h); }
  }

  predicate SlotOrder(s: seq<Hit>) {
    forall i, j :: 0 <= i < j < |s| ==> s[i].slot < s[j].slot
  }

  lemma {:induction false} HitsInOrder(scores: seq<int>, mask: seq<bool>, lo: nat, hi: nat)
    requires hi <= |scores| && hi <= |mask|
    ensures SlotOrder(HitsIn(scores, mask, lo, hi))
    ensures forall i :: 0 <= i < |HitsIn(scores, mask, lo, hi)| ==> lo <= HitsIn(scores, mask, lo, hi)[i].slot < hi
    decreases hi
  {
    if lo < hi { HitsInOrder(scores, mask, lo, hi - 1); }
  }

  // ---------------------------------------------------------------- renumbering

  predicate Within(s: seq<Hit>, n: nat) {
    forall i :: 0 <= i < |s| ==> 0 <= s[i].slot < n
  }

  /** Slot `j` of a gathered copy is slot `to[j]` of the index. */
  function Lift(s: seq<Hit>, to: seq<int>): (r: seq<Hit>)
    requires Within(s, |to|)
    ensures |r| == |s| && forall i :: 0 <= i < |s| ==> r[i] == Hit(s[i].score, to[s[i].slot])
  {
    seq(|s|, i requires 0 <= i < |s| => Hit(s[i].score, to[s[i].slot]))
  }

  function Span(lo: int, n: nat): (r: seq<int>)
    ensures |r| == n && forall i :: 0 <= i < n ==> r[i] == lo + i
  {
    seq(n, i requires 0 <= i < n => lo + i)
  }

  lemma HitsWithin(scores: seq<int>, mask: seq<bool>, lo: nat, hi: nat)
    requires hi <= |scores| && hi <= |mask|
    ensures Within(HitsIn(scores, mask, lo, hi), hi)
  {
    HitsInOrder(scores, mask, lo, hi);
  }

  lemma LiftConcat(a: seq<Hit>, b: seq<Hit>, to: seq<int>)
    requires Within(a, |to|) && Within(b, |to|)
    ensures Within(a + b, |to|) && Lift(a + b, to) == Lift(a, to) + Lift(b, to)
  {
  }

  predicate CutOut<T(==)>(cut: seq<T>, s: seq<T>, lo: nat) {
    lo + |cut| <= |s| && forall j :: 0 <= j < |cut| ==> cut[j] == s[lo + j]
  }

  /** Scanning a cut-out range and renumbering its slots is scanning the range in place. */
  lemma {:induction false} HitsCutOut(scores: seq<int>, mask: seq<bool>, cs: seq<int>, cm: seq<bool>, lo: nat, n: nat)
    requires CutOut(cs, scores, lo) && CutOut(cm, mask, lo) && n <= |cs| == |cm|
    ensures Within(HitsIn(cs, cm, 0, n), |cs|)
    ensures HitsIn(scores, mask, lo, lo + n) == Lift(HitsIn(cs, cm, 0, n), Span(lo, |cs|))
  {
    HitsWithin(cs, cm, 0, n);
    if n > 0 {
      HitsCutOut(scores, mask, cs, cm, lo, n - 1);
      HitsWithin(cs, cm, 0, n - 1);
      var last := if cm[n - 1] then [Hit(cs[n - 1], n - 1)] else [];
      var shown := if mask[lo + n - 1] then [Hit(scores[lo + n - 1], lo + n - 1)] else [];
      assert Lift(last, Span(lo, |cs|)) == shown;
      assert HitsIn(cs, cm, 0, n) == HitsIn(cs, cm, 0, n - 1) + last;
      assert HitsIn(scores, mask, lo, lo + n) == HitsIn(scores, mask, lo, lo + n - 1) + shown;
      hide HitsIn, CutOut;
      LiftConcat(HitsIn(cs, cm, 0, n - 1), last, Span(lo, |cs|));
    }
  }

  /** The renumbering keeps the order of these hits' slots. */
  predicate KeepsOrder(s: seq<Hit>, to: seq<int>)
    requires Within(s, |to|)
  {
    forall i, j :: 0 <= i < |s| && 0 <= j < |s| && s[i].slot < s[j].slot ==> to[s[i].slot] < to[s[j].slot]
  }

  lemma KeepsOrderPart(s: seq<Hit>, r: seq<Hit>, to: seq<int>)
    requires Within(s, |to|) && KeepsOrder(s, to) && forall i :: 0 <= i < |r| ==> r[i] in s
    ensures Within(r, |to|) && KeepsOrder(r, to)
  {
  }

  /** One step of the insertion, given the insertion into the rest. */
  lemma InsertLiftedLater(x: Hit, y: Hit, s: seq<Hit>, to: seq<int>)
    requires s != [] && Within(s, |to|) && Within(Insert(x, s[1..]), |to|) && Within(Insert(x, s), |to|)
    requires Before(s[0], x) && Before(Lift(s, to)[0], y)
    requires Insert(y, Lift(s[1..], to)) == Lift(Insert(x, s[1..]), to)
    ensures Insert(y, Lift(s, to)) == Lift(Insert(x, s), to)
  {
    var first, tail := [s[0]], Insert(x, s[1..]);
    assert Insert(x, s) == first + tail && first + s[1..] == s;
    assert Lift(s, to)[1..] == Lift(s[1..], to);
    hide Before;
    assert Insert(y, Lift(s, to)) == [Lift(s, to)[0]] + Insert(y, Lift(s[1..], to));
    hide Insert;
    LiftConcat(first, tail, to);
    assert Lift(first, to) == [Lift(s, to)[0]];
  }

  lemma {:induction false} InsertLifted(x: Hit, s: seq<Hit>, to: seq<int>)
    requires Within([x] + s, |to|) && KeepsOrder([x] + s, to) && Within(s, |to|) && Within(Insert(x, s), |to|)
    ensures Insert(Hit(x.score, to[([x] + s)[0].slot]), Lift(s, to)) == Lift(Insert(x, s), to)
  {
    var y := Hit(x.score, to[([x] + s)[0].slot]);
    if s != [] {
      assert ([x] + s)[1] == s[0];
      assert Before(s[0], x) <==> Before(Lift(s, to)[0], y);
    }
    if s == [] || !Before(s[0], x) {
      LiftConcat([x], s, to);
    } else {
      var tail := Insert(x, s[1..]);
      assert Insert(x, s)[1..] == tail;
      assert forall i :: 0 <= i < |tail| ==> tail[i] == Insert(x, s)[i + 1];
      KeepsOrderPart([x] + s, [x] + s[1..], to);
      InsertLifted(x, s[1..], to);
      hide *;
      InsertLiftedLater(x, y, s, to);
    }
  }

  lemma SortedWithin(s: seq<Hit>, n: nat)
    requires Within(s, n)
    ensures Within(Sorted(s), n)
  {
    SortedMultiset(s);
    forall i | 0 <= i < |s| ensures 0 <= Sorted(s)[i].slot < n {
      assert Sorted(s)[i] in multiset(s);
    }
  }

  lemma SortedTailIn(s: seq<Hit>)
    requires s != []
    ensures var r := [s[0]] + Sorted(s[1..]); forall i :: 0 <= i < |r| ==> r[i] in s
  {
    var tail := Sorted(s[1..]);
    SortedMultiset(s[1..]);
    forall i | 0 <= i < |tail| ensures tail[i] in s {
      assert tail[i] in multiset(s[1..]);
    }
  }

  lemma {:induction false} SortedLifted(s: seq<Hit>, to: seq<int>)
    requires Within(s, |to|) && KeepsOrder(s, to) && Within(Sorted(s), |to|)
    ensures Sorted(Lift(s, to)) == Lift(Sorted(s), to)
  {
    if s != [] {
      var tail := Sorted(s[1..]);
      SortedWithin(s[1..], |to|);
      KeepsOrderPart(s, s[1..], to);
      SortedLifted(s[1..], to);
      assert Lift(s, to)[1..] == Lift(s[1..], to);
      SortedTailIn(s);
      KeepsOrderPart(s, [s[0]] + tail, to);
      hide KeepsOrder;
      InsertLifted(s[0], tail, to);
    }
  }

  /** A renumbering that keeps slots in order commutes with ranked selection. */
  lemma TopKLifted(s: seq<Hit>, to: seq<int>, k: nat)
    requires Within(s, |to|) && KeepsOrder(s, to)
    ensures Within(TopK(s, k), |to|) && TopK(Lift(s, to), k) == Lift(TopK(s, k), to)
  {
    SortedWithin(s, |to|);
    SortedLifted(s, to);
  }

  // ---------------------------------------------------------------- the same candidates in another order

  lemma {:induction false} CountOnce<T>(s: seq<T>, x: T)
    requires Distinct(s)
    ensures multiset(s)[x] == if x in s then 1 else 0
  {
    if s != [] {
      CountOnce(s[1..], x);
      assert s == [s[0]] + s[1..];
    }
  }

  lemma SameElements<T>(a: seq<T>, b: seq<T>)
    requires Distinct(a) && Distinct(b) && forall x :: x in a <==> x in b
    ensures multiset(a) == multiset(b)
  {
    forall x: T ensures multiset(a)[x] == multiset(b)[x] {
      CountOnce(a, x);
      CountOnce(b, x);
    }
  }

  /** Candidates gathered from the index: copy slot `j` carries the score of index slot `to[j]`. */
  ghost predicate Gathered(scores: seq<int>, mask: seq<bool>, to: seq<int>, whole: seq<int>, wholeMask: seq<bool>) {
    && |scores| == |mask| == |to| && |whole| == |wholeMask| && Distinct(to)
    && (forall j :: 0 <= j < |to| ==> 0 <= to[j] < |whole| && scores[j] == whole[to[j]] && mask[j] == wholeMask[to[j]])
    && (forall i :: 0 <= i < |whole| && wholeMask[i] ==> i in to)
  }

  lemma LiftedMember(scores: seq<int>, mask: seq<bool>, to: seq<int>, whole: seq<int>, wholeMask: seq<bool>, h: Hit)
    requires Gathered(scores, mask, to, whole, wholeMask) && Within(HitsIn(scores, mask, 0, |to|), |to|)
    ensures h in Lift(HitsIn(scores, mask, 0, |to|), to) <==> h in HitsIn(whole, wholeMask, 0, |whole|)
  {
    var s := HitsIn(scores, mask, 0, |to|);
    HitsMember(whole, wholeMask, 0, |whole|, h);
    if h in Lift(s, to) {
      var i :| 0 <= i < |s| && Lift(s, to)[i] == h;
      HitsMember(scores, mask, 0, |to|, s[i]);
    }
    if h in HitsIn(whole, wholeMask, 0, |whole|) {
      var j :| 0 <= j < |to| && to[j] == h.slot;
      HitsMember(scores, mask, 0, |to|, Hit(h.score, j));
      var i :| 0 <= i < |s| && s[i] == Hit(h.score, j);
      assert Lift(s, to)[i] == h;
    }
  }

  lemma OrderedDistinct(s: seq<Hit>, to: seq<int>)
    requires SlotOrder(s) && Within(s, |to|) && Distinct(to)
    ensures Distinct(Lift(s, to)) && Distinct(s)
  {
    forall i, j | 0 <= i < j < |s| ensures s[i] != s[j] && to[s[i].slot] != to[s[j].slot] {
      assert s[i].slot < s[j].slot;
    }
  }

  lemma HitsDistinct(scores: seq<int>, mask: seq<bool>, to: seq<int>)
    requires |scores| == |mask| == |to| && Distinct(to)
    ensures Within(HitsIn(scores, mask, 0, |to|), |to|)
    ensures Distinct(Lift(HitsIn(scores, mask, 0, |to|), to)) && Distinct(HitsIn(scores, mask, 0, |to|))
  {
    HitsInOrder(scores, mask, 0, |to|);
    HitsWithin(scores, mask, 0, |to|);
    hide *;
    OrderedDistinct(HitsIn(scores, mask, 0, |to|), to);
  }

  /** The candidates of the gathered copy are those of the index, in another order. */
  lemma GatheredSame(scores: seq<int>, mask: seq<bool>, to: seq<int>, whole: seq<int>, wholeMask: seq<bool>)
    requires Gathered(scores, mask, to, whole, wholeMask)
    ensures Within(HitsIn(scores, mask, 0, |to|), |to|)
    ensures multiset(Lift(HitsIn(scores, mask, 0, |to|), to)) == multiset(HitsIn(whole, wholeMask, 0, |whole|))
  {
    HitsDistinct(scores, mask, to);
    HitsDistinct(whole, wholeMask, Span(0, |whole|));
    forall h: Hit ensures h in Lift(HitsIn(scores, mask, 0, |to|), to) <==> h in HitsIn(whole, wholeMask, 0, |whole|) {
      LiftedMember(scores, mask, to, whole, wholeMask, h);
    }
    hide *;
    SameElements(Lift(HitsIn(scores, mask, 0, |to|), to), HitsIn(whole, wholeMask, 0, |whole|));
  }

  lemma LiftErased(s: seq<Hit>, to: seq<int>)
    requires Within(s, |to|)
    ensures Erase(Lift(s, to)) == Erase(s)
  {
  }

  lemma {:induction false} LiftedPart(r: seq<Hit>, s: seq<Hit>, to: seq<int>)
    requires Within(r, |to|) && Within(s, |to|) && multiset(r) == multiset(s)
    ensures multiset(Lift(r, to)) == multiset(Lift(s, to))
    decreases |r|
  {
    if r == [] {
      NothingLeft(s);
    } else {
      var i := SharedElement(r, s);
      LiftedPart(r[1..], s[..i] + s[i + 1..], to);
      assert Lift(r, to) == [Lift(r, to)[0]] + Lift(r[1..], to);
      LiftedWithout(s, i, to);
    }
  }

  lemma LiftedWithout(s: seq<Hit>, i: nat, to: seq<int>)
    requires Within(s, |to|) && i < |s|
    ensures multiset(Lift(s, to)) == multiset{Lift(s, to)[i]} + multiset(Lift(s[..i] + s[i + 1..], to))
  {
    var e := Lift(s, to);
    assert e == e[..i] + [e[i]] + e[i + 1..];
    assert Lift(s[..i] + s[i + 1..], to) == e[..i] + e[i + 1..];
  }

  lemma WithinPart(r: seq<Hit>, s: seq<Hit>, n: nat)
    requires Within(s, n) && multiset(r) <= multiset(s)
    ensures Within(r, n)
  {
    forall i | 0 <= i < |r| ensures 0 <= r[i].slot < n {
      assert r[i] in multiset(r) && r[i] in multiset(s);
    }
  }

  lemma LiftedContained(r: seq<Hit>, s: seq<Hit>, to: seq<int>)
    requires Within(s, |to|) && multiset(r) <= multiset(s)
    ensures Within(r, |to|) && multiset(Lift(r, to)) <= multiset(Lift(s, to))
  {
    var rest := Split(r, s);
    assert multiset(r + rest) == multiset(s);
    WithinPart(r, s, |to|);
    WithinPart(rest, s, |to|);
    hide Within;
    LiftConcat(r, rest, to);
    LiftedPart(r + rest, s, to);
  }

  /** A best-k list of the gathered copy, renumbered, is a best-k list of the index. */
  lemma GatheredBest(scores: seq<int>, mask: seq<bool>, to: seq<int>, whole: seq<int>, wholeMask: seq<bool>,
      best: seq<Hit>, k: nat)
    requires Gathered(scores, mask, to, whole, wholeMask) && IsTopK(best, HitsIn(scores, mask, 0, |to|), k)
    ensures Within(best, |to|) && IsTopK(Lift(best, to), HitsIn(whole, wholeMask, 0, |whole|), k)
  {
    var s, w := HitsIn(scores, mask, 0, |to|), HitsIn(whole, wholeMask, 0, |whole|);
    GatheredSame(scores, mask, to, whole, wholeMask);
    assert multiset(best) <= multiset(s);
    hide HitsIn, IsTopK;
    LiftedContained(best, s, to);
    hide Within, TopK;
    IsTopKErased(best, s, k);
    LiftErased(best, to);
    LiftErased(s, to);
    EraseMultiset(Lift(s, to), w);
    TopKPermuted(Erase(s), Erase(w), k);
    ErasedIsTopK(Lift(best, to), w, k);
  }

  /** Every best-k list of the copy, renumbered, is every best-k list of the index. */
  ghost predicate SameBest(copy: seq<Hit>, to: seq<int>, whole: seq<Hit>, k: nat) {
    forall a, b :: IsTopK(a, copy, k) && IsTopK(b, whole, k) ==> Within(a, |to|) && Lift(a, to) == b
  }

  lemma HitsOnce(scores: seq<int>, mask: seq<bool>)
    requires |scores| == |mask|
    ensures forall h :: multiset(HitsIn(scores, mask, 0, |scores|))[h] <= 1
  {
    var hits := HitsIn(scores, mask, 0, |scores|);
    HitsDistinct(scores, mask, Span(0, |scores|));
    hide HitsIn;
    forall h ensures multiset(hits)[h] <= 1 { CountOnce(hits, h); }
  }

  /** Whatever either kernel does with equal scores, the lists are the same exactly when no tie reaches the
      first `k` places. */
  lemma SameBestIff(scores: seq<int>, mask: seq<bool>, to: seq<int>, whole: seq<int>, wholeMask: seq<bool>, k: nat)
    requires Gathered(scores, mask, to, whole, wholeMask)
    ensures var hits := HitsIn(whole, wholeMask, 0, |whole|);
            SameBest(HitsIn(scores, mask, 0, |to|), to, hits, k) <==> UntiedTop(hits, k)
  {
    var copy, hits := HitsIn(scores, mask, 0, |to|), HitsIn(whole, wholeMask, 0, |whole|);
    HitsOnce(whole, wholeMask);
    hide *;
    BestUniqueIff(hits, k);
    GatheredLifts(scores, mask, to, whole, wholeMask, k);
    if UntiedTop(hits, k) { UntiedSameBest(copy, to, hits, k); }
    if SameBest(copy, to, hits, k) { SameBestUnique(copy, to, hits, k); }
  }

  /** Every best-k list of the copy is one of the index, renumbered. */
  ghost predicate LiftsBest(copy: seq<Hit>, to: seq<int>, whole: seq<Hit>, k: nat) {
    forall a :: IsTopK(a, copy, k) ==> Within(a, |to|) && IsTopK(Lift(a, to), whole, k)
  }

  lemma GatheredLifts(scores: seq<int>, mask: seq<bool>, to: seq<int>, whole: seq<int>, wholeMask: seq<bool>, k: nat)
    requires Gathered(scores, mask, to, whole, wholeMask)
    ensures LiftsBest(HitsIn(scores, mask, 0, |to|), to, HitsIn(whole, wholeMask, 0, |whole|), k)
  {
    var copy, hits := HitsIn(scores, mask, 0, |to|), HitsIn(whole, wholeMask, 0, |whole|);
    hide HitsIn, IsTopK, Within, Gathered;
    forall a | IsTopK(a, copy, k) ensures Within(a, |to|) && IsTopK(Lift(a, to), hits, k) {
      GatheredBest(scores, mask, to, whole, wholeMask, a, k);
    }
  }

  lemma UntiedSameBest(copy: seq<Hit>, to: seq<int>, hits: seq<Hit>, k: nat)
    requires LiftsBest(copy, to, hits, k) && UntiedTop(hits, k)
    ensures SameBest(copy, to, hits, k)
  {
    hide IsTopK, UntiedTop, Within;
    forall a, b | IsTopK(a, copy, k) && IsTopK(b, hits, k) ensures Within(a, |to|) && Lift(a, to) == b {
      UntiedIsTopK(Lift(a, to), hits, k);
      UntiedIsTopK(b, hits, k);
    }
  }

  lemma SameBestUnique(copy: seq<Hit>, to: seq<int>, hits: seq<Hit>, k: nat)
    requires SameBest(copy, to, hits, k)
    ensures forall r :: IsTopK(r, hits, k) ==> r == TopK(hits, k)
  {
    TopKIsTopK(copy, k);
    TopKIsTopK(hits, k);
    hide IsTopK, TopK, Lift, Within;
    forall r | IsTopK(r, hits, k) ensures r == TopK(hits, k) { assert Lift(TopK(copy, k), to) == r; }
  }

  /** Among the candidates the copy keeps the slots in order. */
  predicate AscendingWhere(to: seq<int>, mask: seq<bool>)
    requires |to| == |mask|
  {
    forall i, j :: 0 <= i < j < |to| && mask[i] && mask[j] ==> to[i] < to[j]
  }

  lemma HitsKeepOrder(scores: seq<int>, mask: seq<bool>, to: seq<int>)
    requires |scores| == |mask| == |to| && AscendingWhere(to, mask)
    ensures Within(HitsIn(scores, mask, 0, |to|), |to|) && KeepsOrder(HitsIn(scores, mask, 0, |to|), to)
  {
    var s := HitsIn(scores, mask, 0, |to|);
    HitsWithin(scores, mask, 0, |to|);
    forall i | 0 <= i < |s|
      ensures 0 <= s[i].slot < |to| && mask[s[i].slot]
    {
      HitsMember(scores, mask, 0, |to|, s[i]);
    }
    hide HitsIn;
  }

  /** When the copy keeps the candidate slots in order the renumbered ranking is the ranking of the index itself. */
  lemma GatheredInOrder(scores: seq<int>, mask: seq<bool>, to: seq<int>, whole: seq<int>, wholeMask: seq<bool>, k: nat)
    requires Gathered(scores, mask, to, whole, wholeMask) && AscendingWhere(to, mask)
    ensures var best := TopK(HitsIn(scores, mask, 0, |to|), k);
            Within(best, |to|) && Lift(best, to) == TopK(HitsIn(whole, wholeMask, 0, |whole|), k)
  {
    var s, w := HitsIn(scores, mask, 0, |to|), HitsIn(whole, wholeMask, 0, |whole|);
    GatheredSame(scores, mask, to, whole, wholeMask);
    HitsKeepOrder(scores, mask, to);
    hide HitsIn, TopK, KeepsOrder;
    TopKLifted(s, to, k);
    TopKPermuted(Lift(s, to), w, k);
  }

  /** All scores the same. */
  predicate AllTied(scores: seq<int>) {
    forall i, j :: 0 <= i < |scores| && 0 <= j < |scores| ==> scores[i] == scores[j]
  }

  /** With nothing but ties a search lists its candidates in slot order. */
  lemma TiedInOrder(scores: seq<int>, mask: seq<bool>, n: nat, k: nat)
    requires |scores| == |mask| == n && AllTied(scores) && n <= k
    ensures TopK(HitsIn(scores, mask, 0, n), k) == HitsIn(scores, mask, 0, n)
  {
    var s := HitsIn(scores, mask, 0, n);
    HitsInOrder(scores, mask, 0, n);
    forall i | 0 <= i < |s|
      ensures 0 <= s[i].slot < n && s[i].score == scores[s[i].slot]
    {
      HitsMember(scores, mask, 0, n, s[i]);
    }
    HitsCount(scores, mask, n);
    hide HitsIn;
    RankedSorted(s);
  }

  lemma {:induction false} HitsCount(scores: seq<int>, mask: seq<bool>, n: nat)
    requires n <= |scores| && n <= |mask|
    ensures |HitsIn(scores, mask, 0, n)| <= n
  {
    if n > 0 { HitsCount(scores, mask, n - 1); }
  }

  lemma TiesAscend(s: seq<Hit>, to: seq<int>, a: nat, c: nat)
    requires Within(s, |to|) && SlotOrder(s) && Ranked(Lift(s, to)) && Distinct(to) && a < c < |s|
             && s[a].score == s[c].score
    ensures to[s[a].slot] < to[s[c].slot]
  {
    var w := Lift(s, to);
    assert !Before(w[c], w[a]);
    assert s[a].slot < s[c].slot;
  }

  lemma SlotListed(scores: seq<int>, mask: seq<bool>, n: nat, i: nat) returns (a: nat)
    requires n <= |scores| && n <= |mask| && i < n && mask[i]
    ensures a < |HitsIn(scores, mask, 0, n)| && HitsIn(scores, mask, 0, n)[a] == Hit(scores[i], i)
  {
    HitsMember(scores, mask, 0, n, Hit(scores[i], i));
    a :| 0 <= a < |HitsIn(scores, mask, 0, n)| && HitsIn(scores, mask, 0, n)[a] == Hit(scores[i], i);
  }

  /** If the two rankings agree when everything ties, the copy keeps the candidate slots in order. */
  lemma AgreeingTiesInOrder(scores: seq<int>, mask: seq<bool>, to: seq<int>, whole: seq<int>, wholeMask: seq<bool>)
    requires Gathered(scores, mask, to, whole, wholeMask) && AllTied(scores)
    requires Within(TopK(HitsIn(scores, mask, 0, |to|), |to|), |to|)
    requires Lift(TopK(HitsIn(scores, mask, 0, |to|), |to|), to) == TopK(HitsIn(whole, wholeMask, 0, |whole|), |to|)
    ensures AscendingWhere(to, mask)
  {
    var s := HitsIn(scores, mask, 0, |to|);
    TiedInOrder(scores, mask, |to|, |to|);
    HitsInOrder(scores, mask, 0, |to|);
    SortedRanked(HitsIn(whole, wholeMask, 0, |whole|));
    assert Ranked(Lift(s, to)) && Distinct(to) && SlotOrder(s);
    hide HitsIn, TopK, Ranked, Gathered;
    forall i, j | 0 <= i < j < |to| && mask[i] && mask[j] ensures to[i] < to[j] {
      var a := SlotListed(scores, mask, |to|, i);
      var c := SlotListed(scores, mask, |to|, j);
      TiesAscend(s, to, a, c);
    }
  }
}
