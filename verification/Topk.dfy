/** Ranked selection: the k best scored slots, the merge of several such lists, and what is left
    free when equal scores may be ordered in any way. Scores are totally ordered. */
module Topk {

  datatype Hit = Hit(score: int, slot: int)

  /** Higher score first; among equal scores the lower slot. */
  predicate Before(a: Hit, b: Hit) {
    a.score > b.score || (a.score == b.score && a.slot < b.slot)
  }

  predicate Ranked(s: seq<Hit>) {
    forall i, j :: 0 <= i < j < |s| ==> !Before(s[j], s[i])
  }

  predicate ByScore(s: seq<Hit>) {
    forall i, j :: 0 <= i < j < |s| ==> s[i].score >= s[j].score
  }

  function Take<T>(s: seq<T>, k: nat): (r: seq<T>)
    ensures |r| == if |s| < k then |s| else k
  {
    if |s| < k then s else s[..k]
  }

  function Insert(x: Hit, s: seq<Hit>): (r: seq<Hit>)
    ensures |r| == |s| + 1
  {
    if s == [] || !Before(s[0], x) then [x] + s else [s[0]] + Insert(x, s[1..])
  }

  function Sorted(s: seq<Hit>): (r: seq<Hit>)
    ensures |r| == |s|
  {
    if s == [] then [] else Insert(s[0], Sorted(s[1..]))
  }

  function TopK(s: seq<Hit>, k: nat): seq<Hit> {
    Take(Sorted(s), k)
  }

  // ---------------------------------------------------------------- sorting

  lemma {:induction false} InsertMultiset(x: Hit, s: seq<Hit>)
    ensures multiset(Insert(x, s)) == multiset{x} + multiset(s)
  {
    if s != [] && Before(s[0], x) {
      InsertMultiset(x, s[1..]);
      assert s == [s[0]] + s[1..];
    }
  }

  lemma {:induction false} SortedMultiset(s: seq<Hit>)
    ensures multiset(Sorted(s)) == multiset(s)
  {
    if s != [] {
      SortedMultiset(s[1..]);
      InsertMultiset(s[0], Sorted(s[1..]));
      assert s == [s[0]] + s[1..];
    }
  }

  lemma {:induction false} InsertRanked(x: Hit, s: seq<Hit>)
    requires Ranked(s)
    ensures Ranked(Insert(x, s))
  {
    if s != [] && Before(s[0], x) {
      InsertRanked(x, s[1..]);
      var tail := Insert(x, s[1..]);
      InsertMultiset(x, s[1..]);
      forall j | 0 <= j < |tail| ensures !Before(tail[j], s[0]) {
        assert tail[j] in multiset(tail);
        assert tail[j] == x || tail[j] in s[1..];
      }
    }
  }

  lemma {:induction false} SortedRanked(s: seq<Hit>)
    ensures Ranked(Sorted(s))
  {
    if s != [] {
      SortedRanked(s[1..]);
      InsertRanked(s[0], Sorted(s[1..]));
    }
  }

  lemma RankedFirst(s: seq<Hit>, x: Hit)
    requires Ranked(s) && x in s
    ensures !Before(x, s[0])
  {
  }

  lemma SameFirst(a: seq<Hit>, b: seq<Hit>)
    requires Ranked(a) && Ranked(b) && multiset(a) == multiset(b) && a != []
    ensures b != [] && a[0] == b[0]
  {
    assert a[0] in multiset(b);
    assert b[0] in multiset(a);
    hide Ranked;
    RankedFirst(a, b[0]);
    RankedFirst(b, a[0]);
  }

  lemma SameRest(a: seq<Hit>, b: seq<Hit>)
    requires a != [] && b != [] && a[0] == b[0] && multiset(a) == multiset(b)
    ensures multiset(a[1..]) == multiset(b[1..])
  {
    assert a == [a[0]] + a[1..] && b == [b[0]] + b[1..];
    assert multiset(a[1..]) == multiset(a) - multiset{a[0]} && multiset(b[1..]) == multiset(b) - multiset{b[0]};
  }

  lemma RankedTail(s: seq<Hit>)
    requires Ranked(s) && s != []
    ensures Ranked(s[1..])
  {
  }

  /** Only one ranking of the same hits exists. */
  lemma {:induction false} RankedUnique(a: seq<Hit>, b: seq<Hit>)
    requires Ranked(a) && Ranked(b) && multiset(a) == multiset(b)
    ensures a == b
  {
    hide Ranked;
    if a == [] {
      assert |multiset(b)| == 0;
    } else {
      SameFirst(a, b);
      SameRest(a, b);
      RankedTail(a);
      RankedTail(b);
      RankedUnique(a[1..], b[1..]);
      assert a == [a[0]] + a[1..] && b == [b[0]] + b[1..];
    }
  }

  /** The order in which candidates arrive does not matter. */
  lemma TopKPermuted(a: seq<Hit>, b: seq<Hit>, k: nat)
    requires multiset(a) == multiset(b)
    ensures TopK(a, k) == TopK(b, k)
  {
    SortedMultiset(a);
    SortedMultiset(b);
    SortedRanked(a);
    SortedRanked(b);
    RankedUnique(Sorted(a), Sorted(b));
  }

  lemma RankedSorted(s: seq<Hit>)
    requires Ranked(s)
    ensures Sorted(s) == s
  {
    SortedMultiset(s);
    SortedRanked(s);
    RankedUnique(s, Sorted(s));
  }

  /** What is not selected ranks after everything selected. */
  lemma TopKBest(s: seq<Hit>, k: nat) returns (rest: seq<Hit>)
    ensures Ranked(TopK(s, k)) && TopK(s, k) + rest == Sorted(s) && Ranked(TopK(s, k) + rest)
    ensures multiset(TopK(s, k)) + multiset(rest) == multiset(s)
    ensures forall x, y :: x in TopK(s, k) && y in rest ==> !Before(y, x)
  {
    SortedMultiset(s);
    SortedRanked(s);
    rest := Sorted(s)[|TopK(s, k)|..];
    assert Sorted(s) == TopK(s, k) + rest;
  }

  // ---------------------------------------------------------------- merging

  /** A higher score, or the same score and not a later slot. */
  predicate NotAfter(x: Hit, y: Hit) {
    x.score > y.score || (x.score == y.score && x.slot <= y.slot)
  }

  lemma TopKFrom(s: seq<Hit>, k: nat, x: Hit)
    requires x in TopK(s, k)
    ensures x in s
  {
    SortedMultiset(s);
    hide Sorted;
    assert x in Sorted(s);
    assert x in multiset(Sorted(s));
  }

  lemma TopKLeftOut(s: seq<Hit>, k: nat, x: Hit, y: Hit)
    requires x in TopK(s, k) && y in s && y !in TopK(s, k)
    ensures NotAfter(x, y)
  {
    hide TopK, Sorted;
    var rest := TopKBest(s, k);
    assert y in multiset(s) && y !in multiset(TopK(s, k));
    assert y in multiset(rest) && y in rest;
  }

  /** What the best list is, hit by hit: `k` of the hits or all of them, higher scores first, ties by ascending
      slot, and nothing left out would come earlier. */
  lemma TopKFacts(s: seq<Hit>, k: nat)
    ensures |TopK(s, k)| == if |s| < k then |s| else k
    ensures forall x :: x in TopK(s, k) ==> x in s
    ensures forall i, j :: 0 <= i < j < |TopK(s, k)| ==> NotAfter(TopK(s, k)[i], TopK(s, k)[j])
    ensures forall x, y :: x in TopK(s, k) && y in s && y !in TopK(s, k) ==> NotAfter(x, y)
  {
    assert |TopK(s, k)| == if |s| < k then |s| else k;
    hide TopK, Sorted;
    var rest := TopKBest(s, k);
    forall x | x in TopK(s, k) ensures x in s { TopKFrom(s, k, x); }
    hide NotAfter;
    forall x, y | x in TopK(s, k) && y in s && y !in TopK(s, k) ensures NotAfter(x, y) { TopKLeftOut(s, k, x, y); }
    forall i, j | 0 <= i < j < |TopK(s, k)| ensures NotAfter(TopK(s, k)[i], TopK(s, k)[j]) {
      RankedPair(TopK(s, k), i, j);
    }
  }

  lemma RankedPair(s: seq<Hit>, i: nat, j: nat)
    requires Ranked(s) && i < j < |s|
    ensures NotAfter(s[i], s[j])
  {
  }

  lemma {:induction false} TakeInsert(x: Hit, s: seq<Hit>, k: nat)
    ensures Take(Insert(x, s), k) == Take(Insert(x, Take(s, k)), k)
  {
    if k > 0 && s != [] && Before(s[0], x) {
      TakeInsert(x, s[1..], k - 1);
      assert Take(s, k)[1..] == Take(s[1..], k - 1);
      assert Take(Insert(x, s), k) == [s[0]] + Take(Insert(x, s[1..]), k - 1);
      assert Take(Insert(x, Take(s, k)), k) == [s[0]] + Take(Insert(x, Take(s[1..], k - 1)), k - 1);
    } else if k > 0 {
      assert Take(Insert(x, s), k) == [x] + Take(s, k - 1);
    }
  }

  lemma TopKCons(x: Hit, s: seq<Hit>, k: nat)
    ensures TopK([x] + s, k) == Take(Insert(x, TopK(s, k)), k)
  {
    assert ([x] + s)[1..] == s;
    TakeInsert(x, Sorted(s), k);
  }

  lemma TopKIdempotent(s: seq<Hit>, k: nat)
    ensures TopK(TopK(s, k), k) == TopK(s, k)
  {
    SortedRanked(s);
    RankedSorted(TopK(s, k));
  }

  lemma {:induction false} TopKOfPrefixed(a: seq<Hit>, b: seq<Hit>, k: nat)
    ensures TopK(a + b, k) == TopK(a + TopK(b, k), k)
  {
    hide TopK;
    if a == [] {
      TopKIdempotent(b, k);
      assert a + b == b && a + TopK(b, k) == TopK(b, k);
    } else {
      TopKOfPrefixed(a[1..], b, k);
      TopKCons(a[0], a[1..] + b, k);
      TopKCons(a[0], a[1..] + TopK(b, k), k);
      assert a + b == [a[0]] + (a[1..] + b) && a + TopK(b, k) == [a[0]] + (a[1..] + TopK(b, k));
    }
  }

  lemma TopKSwap(a: seq<Hit>, b: seq<Hit>, k: nat)
    ensures TopK(a + b, k) == TopK(b + a, k)
  {
    TopKPermuted(a + b, b + a, k);
  }

  /** The best of a union are among the best of its parts. */
  lemma TopKUnion(a: seq<Hit>, b: seq<Hit>, k: nat)
    ensures TopK(a + b, k) == TopK(TopK(a, k) + TopK(b, k), k)
  {
    TopKOfPrefixed(a, b, k);
    TopKSwap(a, TopK(b, k), k);
    TopKOfPrefixed(TopK(b, k), a, k);
    TopKSwap(TopK(b, k), TopK(a, k), k);
  }

  function Flatten<T>(parts: seq<seq<T>>): seq<T> {
    if parts == [] then [] else Flatten(parts[..|parts| - 1]) + parts[|parts| - 1]
  }

  /** Merging the per-part best gives the best of everything. */
  lemma {:induction false} TopKParts(parts: seq<seq<Hit>>, locals: seq<seq<Hit>>, k: nat)
    requires |parts| == |locals| && forall i :: 0 <= i < |parts| ==> locals[i] == TopK(parts[i], k)
    ensures TopK(Flatten(locals), k) == TopK(Flatten(parts), k)
  {
    if parts != [] {
      var n := |parts| - 1;
      TopKParts(parts[..n], locals[..n], k);
      var a, b := Flatten(parts[..n]), parts[n];
      var a', b' := Flatten(locals[..n]), locals[n];
      TopKIdempotent(b, k);
      TopKUnion(a, b, k);
      TopKUnion(a', b', k);
    }
  }

  /** `merge_topk`: concatenate the local lists, sort by score then slot, keep the first `k`. */
  method MergeTopK(locals: seq<seq<Hit>>, k: nat) returns (best: seq<Hit>)
    ensures best == TopK(Flatten(locals), k)
  {
    var pairs: seq<Hit> := [];
    for i := 0 to |locals|
      invariant pairs == Flatten(locals[..i])
    {
      pairs := pairs + locals[i];
      assert locals[..i + 1][..i] == locals[..i];
    }
    assert locals[..|locals|] == locals;
    best := Sorted(pairs);
    best := if |best| < k then best else best[..k];
  }

  // ---------------------------------------------------------------- any order among equal scores

  /** `r` is a best-k list of `s`, with ties ordered and cut in any way. */
  ghost predicate IsTopK(r: seq<Hit>, s: seq<Hit>, k: nat) {
    && |r| == (if |s| < k then |s| else k)
    && ByScore(r)
    && multiset(r) <= multiset(s)
    && forall x, y :: x in r && y in multiset(s) - multiset(r) ==> x.score >= y.score
  }

  /** Only the scores. */
  function Erase(s: seq<Hit>): (r: seq<Hit>)
    ensures |r| == |s| && forall i :: 0 <= i < |s| ==> r[i] == Hit(s[i].score, 0)
  {
    seq(|s|, i requires 0 <= i < |s| => Hit(s[i].score, 0))
  }

  lemma EraseConcat(a: seq<Hit>, b: seq<Hit>)
    ensures Erase(a + b) == Erase(a) + Erase(b)
  {
  }

  lemma TakenOut(b: seq<Hit>, i: nat)
    requires i < |b|
    ensures multiset(b) == multiset{b[i]} + multiset(b[..i] + b[i + 1..])
  {
    assert b == b[..i] + [b[i]] + b[i + 1..];
  }

  lemma Cancel(x: Hit, a: multiset<Hit>, c: multiset<Hit>)
    requires multiset{x} + a == multiset{x} + c
    ensures a == c
  {
    assert a == (multiset{x} + a) - multiset{x} && c == (multiset{x} + c) - multiset{x};
  }

  /** The same element taken out of two orders of the same hits. */
  lemma SharedElement(a: seq<Hit>, b: seq<Hit>) returns (i: nat)
    requires a != [] && multiset(a) == multiset(b)
    ensures i < |b| && b[i] == a[0] && multiset(a[1..]) == multiset(b[..i] + b[i + 1..])
  {
    assert a[0] in multiset(b);
    i :| 0 <= i < |b| && b[i] == a[0];
    TakenOut(b, i);
    TakenOut(a, 0);
    assert a[..0] + a[1..] == a[1..];
    Cancel(a[0], multiset(a[1..]), multiset(b[..i] + b[i + 1..]));
  }

  lemma NothingLeft(b: seq<Hit>)
    requires multiset(b) == multiset{}
    ensures b == []
  {
    assert |multiset(b)| == 0;
  }

  lemma EraseHead(a: seq<Hit>)
    requires a != []
    ensures multiset(Erase(a)) == multiset{Hit(a[0].score, 0)} + multiset(Erase(a[1..]))
  {
    assert Erase(a) == [Hit(a[0].score, 0)] + Erase(a[1..]);
  }

  lemma {:induction false} EraseMultiset(a: seq<Hit>, b: seq<Hit>)
    requires multiset(a) == multiset(b)
    ensures multiset(Erase(a)) == multiset(Erase(b))
    decreases |a|
  {
    if a == [] {
      NothingLeft(b);
    } else {
      var i := SharedElement(a, b);
      EraseMultiset(a[1..], b[..i] + b[i + 1..]);
      EraseHead(a);
      EraseParts(b, i);
    }
  }

  lemma EraseParts(b: seq<Hit>, i: nat)
    requires i < |b|
    ensures multiset(Erase(b)) == multiset{Hit(b[i].score, 0)} + multiset(Erase(b[..i] + b[i + 1..]))
  {
    var e := Erase(b);
    assert e == e[..i] + [e[i]] + e[i + 1..];
    assert Erase(b[..i] + b[i + 1..]) == e[..i] + e[i + 1..];
  }

  /** The elements of a multiset in some order. */
  lemma SeqOf(m: multiset<Hit>) returns (s: seq<Hit>)
    ensures multiset(s) == m
    decreases |m|
  {
    if m == multiset{} {
      s := [];
    } else {
      var x :| x in m;
      s := SeqOf(m - multiset{x});
      s := s + [x];
    }
  }

  lemma Split(r: seq<Hit>, s: seq<Hit>) returns (rest: seq<Hit>)
    requires multiset(r) <= multiset(s)
    ensures multiset(rest) == multiset(s) - multiset(r)
    ensures multiset(Erase(s)) == multiset(Erase(r)) + multiset(Erase(rest))
  {
    rest := SeqOf(multiset(s) - multiset(r));
    assert multiset(r + rest) == multiset(s);
    EraseMultiset(r + rest, s);
    EraseConcat(r, rest);
  }

  lemma ErasedBest(r: seq<Hit>, rest: seq<Hit>, k: nat)
    requires ByScore(r) && (forall x, y :: x in r && y in rest ==> x.score >= y.score)
    requires |r| == k || rest == []
    ensures |r| <= k ==> TopK(Erase(r) + Erase(rest), k) == Erase(r)
  {
    var a, b := Erase(r), Sorted(Erase(rest));
    SortedMultiset(Erase(rest));
    SortedRanked(Erase(rest));
    forall j | 0 <= j < |b| ensures forall i :: 0 <= i < |r| ==> r[i].score >= b[j].score && b[j].slot == 0 {
      assert b[j] in multiset(Erase(rest));
      var m :| 0 <= m < |rest| && Erase(rest)[m] == b[j];
      assert rest[m] in rest;
    }
    assert Ranked(a + b);
    RankedSorted(a + b);
    TopKPermuted(a + Erase(rest), a + b, k);
  }

  lemma IsTopKErased(r: seq<Hit>, s: seq<Hit>, k: nat)
    requires IsTopK(r, s, k)
    ensures Erase(r) == TopK(Erase(s), k)
  {
    var rest := Split(r, s);
    assert |multiset(r + rest)| == |multiset(s)|;
    assert forall y :: y in rest ==> y in multiset(rest);
    ErasedBest(r, rest, k);
    TopKPermuted(Erase(s), Erase(r) + Erase(rest), k);
  }

  lemma RestErased(r: seq<Hit>, s: seq<Hit>, k: nat, rest: seq<Hit>, y: Hit)
    requires Erase(r) == TopK(Erase(s), k) && y in rest
    requires multiset(Erase(s)) == multiset(Erase(r)) + multiset(Erase(rest))
    ensures forall i :: 0 <= i < |r| ==> r[i].score >= y.score
  {
    var low := TopKBest(Erase(s), k);
    assert multiset(low) == multiset(Erase(s)) - multiset(TopK(Erase(s), k));
    hide TopK, Sorted;
    assert multiset(low) == multiset(Erase(rest));
    var j :| 0 <= j < |rest| && rest[j] == y;
    assert Erase(rest)[j] in multiset(low);
    forall i | 0 <= i < |r| ensures r[i].score >= y.score {
      assert Erase(r)[i] in TopK(Erase(s), k);
      assert !Before(Hit(y.score, 0), Hit(r[i].score, 0));
    }
  }

  lemma ErasedByScore(r: seq<Hit>, s: seq<Hit>, k: nat)
    requires Erase(r) == TopK(Erase(s), k)
    ensures ByScore(r)
  {
    SortedRanked(Erase(s));
    forall i, j | 0 <= i < j < |r| ensures r[i].score >= r[j].score {
      assert !Before(Erase(r)[j], Erase(r)[i]);
    }
  }

  lemma ErasedIsTopK(r: seq<Hit>, s: seq<Hit>, k: nat)
    requires multiset(r) <= multiset(s) && Erase(r) == TopK(Erase(s), k)
    ensures IsTopK(r, s, k)
  {
    var rest := Split(r, s);
    ErasedByScore(r, s, k);
    assert |r| == if |s| < k then |s| else k;
    hide TopK, ByScore;
    forall x, y | x in r && y in multiset(s) - multiset(r) ensures x.score >= y.score {
      assert y in multiset(rest);
      RestErased(r, s, k, rest, y);
    }
  }

  /** A list of candidates is a best-k list exactly when its scores are the k best scores, best first. */
  lemma IsTopKIff(r: seq<Hit>, s: seq<Hit>, k: nat)
    ensures IsTopK(r, s, k) <==> multiset(r) <= multiset(s) && Erase(r) == TopK(Erase(s), k)
  {
    if IsTopK(r, s, k) { IsTopKErased(r, s, k); }
    if multiset(r) <= multiset(s) && Erase(r) == TopK(Erase(s), k) { ErasedIsTopK(r, s, k); }
  }

  lemma TopKIsTopK(s: seq<Hit>, k: nat)
    ensures IsTopK(TopK(s, k), s, k)
  {
    var best := TopK(s, k);
    var rest := TopKBest(s, k);
    assert |best| == if |s| < k then |s| else k;
    hide TopK, Sorted;
    assert multiset(s) - multiset(best) == multiset(rest);
    forall x, y | x in best && y in multiset(s) - multiset(best) ensures x.score >= y.score {
      assert y in multiset(rest);
      assert !Before(y, x);
    }
    assert ByScore(best) by { assert forall i, j :: 0 <= i < j < |best| ==> !Before(best[j], best[i]); }
  }

  lemma EraseTopK(s: seq<Hit>, k: nat)
    ensures Erase(TopK(s, k)) == TopK(Erase(s), k)
  {
    TopKIsTopK(s, k);
    IsTopKErased(TopK(s, k), s, k);
  }

  predicate StrictUpTo(s: seq<Hit>, k: nat) {
    forall i, j :: 0 <= i < j < |s| && i < k ==> s[i].score > s[j].score
  }

  /** No tie decides which hits the `k` best are, nor their order. */
  predicate UntiedTop(s: seq<Hit>, k: nat) {
    StrictUpTo(Sorted(s), k)
  }

  lemma OnePlace(s: seq<Hit>, k: nat, i: nat, j: nat)
    requires StrictUpTo(s, k) && i < |s| && i < k && j < |s| && s[i].score == s[j].score
    ensures i == j
  {
  }

  lemma ScoresDecide(r: seq<Hit>, best: seq<Hit>, k: nat)
    requires StrictUpTo(best, k) && |r| <= |best| && |r| <= k && multiset(r) <= multiset(best)
    requires forall i :: 0 <= i < |r| ==> r[i].score == best[i].score
    ensures r == best[..|r|]
  {
    forall i | 0 <= i < |r| ensures r[i] == best[i] {
      assert r[i] in multiset(r) && r[i] in multiset(best);
      var j :| 0 <= j < |best| && best[j] == r[i];
      OnePlace(best, k, i, j);
    }
  }

  lemma SameScores(a: seq<Hit>, b: seq<Hit>)
    requires Erase(a) == Erase(b)
    ensures |a| == |b| && forall i :: 0 <= i < |a| ==> a[i].score == b[i].score
  {
    forall i | 0 <= i < |a| ensures a[i].score == b[i].score { assert Erase(a)[i].score == Erase(b)[i].score; }
  }

  lemma UntiedIsTopK(r: seq<Hit>, s: seq<Hit>, k: nat)
    requires UntiedTop(s, k) && IsTopK(r, s, k)
    ensures r == TopK(s, k)
  {
    SortedMultiset(s);
    IsTopKErased(r, s, k);
    EraseTopK(s, k);
    hide Sorted, StrictUpTo, ByScore, Erase;
    SameScores(r, TopK(s, k));
    ScoresDecide(r, Sorted(s), k);
  }

  lemma Swapped(s: seq<Hit>, i: nat, j: nat)
    requires i < j < |s| && s[i].score == s[j].score
    ensures var t := s[i := s[j]][j := s[i]]; multiset(t) == multiset(s) && Erase(t) == Erase(s)
  {
  }

  lemma TakeErased(a: seq<Hit>, b: seq<Hit>, k: nat)
    requires Erase(a) == Erase(b)
    ensures Erase(Take(a, k)) == Erase(Take(b, k)) && multiset(Take(a, k)) <= multiset(a)
  {
    SameScores(a, b);
    assert a == Take(a, k) + a[|Take(a, k)|..];
  }

  /** Two equal scores, one of them among the first `k`, can be told the other way round. */
  lemma TiedElsewise(s: seq<Hit>, k: nat, i: nat, j: nat) returns (r: seq<Hit>)
    requires i < j < |s| && i < k && Sorted(s)[i] != Sorted(s)[j] && Sorted(s)[i].score == Sorted(s)[j].score
    ensures IsTopK(r, s, k) && r != TopK(s, k)
  {
    var best := Sorted(s);
    var other := best[i := best[j]][j := best[i]];
    SortedMultiset(s);
    EraseTopK(s, k);
    hide Sorted, Erase, IsTopK;
    Swapped(best, i, j);
    TakeErased(other, best, k);
    r := Take(other, k);
    assert r[i] == best[j] && TopK(s, k)[i] == best[i];
    ErasedIsTopK(r, s, k);
  }

  lemma CountedTwice(s: seq<Hit>, i: nat, j: nat)
    requires i < j < |s| && s[i] == s[j]
    ensures multiset(s)[s[i]] >= 2
  {
    var rest := s[..i] + s[i + 1..];
    TakenOut(s, i);
    assert rest[j - 1] == s[j] && s[j] in multiset(rest);
  }

  /** Whatever a kernel does with equal scores, its best-k list is the same exactly when no tie reaches the
      first `k` places. */
  lemma BestUniqueIff(s: seq<Hit>, k: nat)
    requires forall x :: multiset(s)[x] <= 1
    ensures (forall r :: IsTopK(r, s, k) ==> r == TopK(s, k)) <==> UntiedTop(s, k)
  {
    if UntiedTop(s, k) {
      forall r | IsTopK(r, s, k) ensures r == TopK(s, k) { UntiedIsTopK(r, s, k); }
    } else {
      var best := Sorted(s);
      SortedRanked(s);
      SortedMultiset(s);
      hide Sorted, IsTopK, TopK;
      var i: nat, j: nat :| i < j < |best| && i < k && best[i].score <= best[j].score;
      assert !Before(best[j], best[i]);
      if best[i] == best[j] { CountedTwice(best, i, j); }
      var r := TiedElsewise(s, k, i, j);
    }
  }

  function EraseAll(parts: seq<seq<Hit>>): (r: seq<seq<Hit>>)
    ensures |r| == |parts| && forall i :: 0 <= i < |parts| ==> r[i] == Erase(parts[i])
  {
    seq(|parts|, i requires 0 <= i < |parts| => Erase(parts[i]))
  }

  lemma {:induction false} EraseFlatten(parts: seq<seq<Hit>>)
    ensures Erase(Flatten(parts)) == Flatten(EraseAll(parts))
  {
    if parts != [] {
      var n := |parts| - 1;
      EraseFlatten(parts[..n]);
      EraseConcat(Flatten(parts[..n]), parts[n]);
      assert EraseAll(parts)[..n] == EraseAll(parts[..n]);
    }
  }

  lemma {:induction false} FlattenContained(parts: seq<seq<Hit>>, locals: seq<seq<Hit>>)
    requires |parts| == |locals| && forall i :: 0 <= i < |parts| ==> multiset(locals[i]) <= multiset(parts[i])
    ensures multiset(Flatten(locals)) <= multiset(Flatten(parts))
  {
    if parts != [] { FlattenContained(parts[..|parts| - 1], locals[..|parts| - 1]); }
  }

  /** Whatever order each part's search puts equal scores in, the merge is a best-k list of everything,
      with the scores a single search over everything would report. */
  lemma MergedIsTopK(parts: seq<seq<Hit>>, locals: seq<seq<Hit>>, k: nat)
    requires |parts| == |locals| && forall i :: 0 <= i < |parts| ==> IsTopK(locals[i], parts[i], k)
    ensures IsTopK(TopK(Flatten(locals), k), Flatten(parts), k)
    ensures Erase(TopK(Flatten(locals), k)) == Erase(TopK(Flatten(parts), k))
  {
    forall i | 0 <= i < |parts| ensures EraseAll(locals)[i] == TopK(EraseAll(parts)[i], k) {
      IsTopKErased(locals[i], parts[i], k);
    }
    hide TopK;
    TopKParts(EraseAll(parts), EraseAll(locals), k);
    EraseFlatten(parts);
    EraseFlatten(locals);
    EraseTopK(Flatten(locals), k);
    EraseTopK(Flatten(parts), k);
    FlattenContained(parts, locals);
    TopKIsTopK(Flatten(locals), k);
    ErasedIsTopK(TopK(Flatten(locals), k), Flatten(parts), k);
  }
}
