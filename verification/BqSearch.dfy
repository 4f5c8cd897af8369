/** Ranked search over packed sign codes: a bounded heap over the yielded slots, an over-fetch when
    tombstones exist, and a filter that drops dead slots from the ranking. */
module BqSearch {
  import opened Options
  import opened IdMap
  import opened Slots
  import opened Bitmap
  import opened Bits
  import opened Topk
  import opened Candidates
  import opened OneBit

  /** `hamming`: eight bytes at a time, then the rest byte by byte. */
  method Hamming(a: seq<bv8>, b: seq<bv8>) returns (d: nat)
    requires |a| == |b|
    ensures d == CountPairs(Xor, a, b, 8 * |a|)
  {
    ghost var all := Zip(Xor, a, b);
    d := 0;
    var i := 0;
    while i + 8 <= |a|
      invariant i <= |a| && d == SumOnes(all[..i])
    {
      SumJoin(all[..i], all[i..i + 8]);
      assert all[..i] + all[i..i + 8] == all[..i + 8];
      assert all[i..i + 8] == Zip(Xor, a[i..i + 8], b[i..i + 8]);
      d := d + SumOnes(Zip(Xor, a[i..i + 8], b[i..i + 8]));
      i := i + 8;
    }
    while i < |a|
      invariant i <= |a| && d == SumOnes(all[..i])
    {
      assert all[..i + 1][..i] == all[..i];
      d := d + CountOnes(a[i] ^ b[i]);
      i := i + 1;
    }
    assert all[..|all|] == all;
    SumIsCount(all);
    ZipCounts(Xor, a, b, 8 * |a|);
  }

  /** The candidate a slot gives, none when its code would run past the chain. */
  function HitAt(query: seq<bv8>, codes: seq<bv8>, slot: nat): seq<Hit> {
    if Offset(|query|, slot) + |query| > |codes| then [] else
      var code := codes[Offset(|query|, slot)..Offset(|query|, slot) + |query|];
      [Hit(-(CountPairs(Xor, query, code, 8 * |query|) as int), slot)]
  }

  function HitsAt(query: seq<bv8>, codes: seq<bv8>, slots: seq<nat>): seq<Hit> {
    if slots == [] then [] else HitsAt(query, codes, slots[..|slots| - 1]) + HitAt(query, codes, slots[|slots| - 1])
  }

  // ---------------------------------------------------------------- nearness, by counted bits

  function SetOf(slots: seq<nat>): set<nat> {
    set s | s in slots
  }

  predicate InChain(query: seq<bv8>, codes: seq<bv8>, slot: nat) {
    Offset(|query|, slot) + |query| <= |codes|
  }

  /** In how many bits the code of a slot differs from the query. */
  function Differing(query: seq<bv8>, codes: seq<bv8>, slot: nat): (d: int)
    requires InChain(query, codes, slot)
    ensures d >= 0
  {
    var code := codes[Offset(|query|, slot)..Offset(|query|, slot) + |query|];
    CountPairs(Xor, query, code, 8 * |query|)
  }

  /** Slot `s` differs in fewer bits than `t`, or in as many and is not the later slot. */
  predicate NoFarther(query: seq<bv8>, codes: seq<bv8>, s: nat, t: nat)
    requires InChain(query, codes, s) && InChain(query, codes, t)
  {
    var a, b := Differing(query, codes, s), Differing(query, codes, t);
    a < b || (a == b && s <= t)
  }

  /** These slots come from the pool, nearest first, and none left out is nearer than one of them. */
  ghost predicate Nearest(query: seq<bv8>, codes: seq<bv8>, pool: set<nat>, at: seq<nat>) {
    && (forall i :: 0 <= i < |at| ==> at[i] in pool && InChain(query, codes, at[i]))
    && (forall i, j :: 0 <= i < j < |at| ==> NoFarther(query, codes, at[i], at[j]))
    && (forall i, s :: 0 <= i < |at| && s in pool && InChain(query, codes, s) && s !in at ==>
          NoFarther(query, codes, at[i], s))
  }

  /** The hits are these slots, scored by minus their distance. */
  ghost predicate ScoredAt(query: seq<bv8>, codes: seq<bv8>, hits: seq<Hit>, at: seq<nat>) {
    && |hits| == |at|
    && forall i :: 0 <= i < |at| ==>
         InChain(query, codes, at[i]) && hits[i] == Hit(-Differing(query, codes, at[i]), at[i])
  }

  lemma {:induction false} HitsAtMember(query: seq<bv8>, codes: seq<bv8>, slots: seq<nat>, h: Hit)
    ensures h in HitsAt(query, codes, slots) <==>
            && h.slot >= 0 && h.slot in slots && InChain(query, codes, h.slot)
            && h.score == -Differing(query, codes, h.slot)
  {
    hide CountPairs;
    if slots != [] {
      HitsAtMember(query, codes, slots[..|slots| - 1], h);
      assert slots == slots[..|slots| - 1] + [slots[|slots| - 1]];
    }
  }

  function SlotsIn(hits: seq<Hit>): (r: seq<nat>)
    requires forall i :: 0 <= i < |hits| ==> hits[i].slot >= 0
    ensures |r| == |hits| && forall i :: 0 <= i < |hits| ==> r[i] == hits[i].slot
  {
    seq(|hits|, i requires 0 <= i < |hits| => hits[i].slot)
  }

  /** The candidates of a pool of slots. */
  ghost predicate CandidatesOf(query: seq<bv8>, codes: seq<bv8>, pool: set<nat>, candidates: seq<Hit>) {
    forall h: Hit :: h in candidates <==>
      && h.slot >= 0 && h.slot in pool && InChain(query, codes, h.slot)
      && h.score == -Differing(query, codes, h.slot)
  }

  /** The best candidates by score are the nearest slots of the pool. */
  lemma BestAreNearest(query: seq<bv8>, codes: seq<bv8>, pool: set<nat>, candidates: seq<Hit>, k: nat)
    returns (at: seq<nat>)
    requires CandidatesOf(query, codes, pool, candidates)
    ensures Nearest(query, codes, pool, at) && ScoredAt(query, codes, TopK(candidates, k), at)
    ensures |at| <= k && ((exists s :: s in pool && InChain(query, codes, s) && s !in at) ==> |at| == k)
  {
    var best := TopK(candidates, k);
    TopKFacts(candidates, k);
    hide TopK, Differing;
    at := SlotsIn(best);
    forall i | 0 <= i < |at| ensures at[i] in pool && InChain(query, codes, at[i]) { assert best[i] in candidates; }
    forall i, s | 0 <= i < |at| && s in pool && InChain(query, codes, s) && s !in at
      ensures NoFarther(query, codes, at[i], s)
    {
      LeftOut(query, codes, pool, candidates, best, at, s);
      assert best[i] in best && best[i] in candidates;
    }
    forall i, j | 0 <= i < j < |at| ensures NoFarther(query, codes, at[i], at[j]) {
      assert best[i] in candidates && best[j] in candidates;
    }
    if s :| s in pool && InChain(query, codes, s) && s !in at {
      LeftOut(query, codes, pool, candidates, best, at, s);
      if |at| < k { TakenWhole(candidates, k); }
    }
  }

  lemma TakenWhole(s: seq<Hit>, k: nat)
    requires |s| <= k
    ensures forall h :: h in s ==> h in TopK(s, k)
  {
    SortedMultiset(s);
    forall h | h in s ensures h in TopK(s, k) { assert h in multiset(Sorted(s)); }
  }

  lemma LeftOut(query: seq<bv8>, codes: seq<bv8>, pool: set<nat>, candidates: seq<Hit>, best: seq<Hit>, at: seq<nat>,
      s: nat)
    requires CandidatesOf(query, codes, pool, candidates) && s in pool && InChain(query, codes, s) && s !in at
    requires |at| == |best| && forall i :: 0 <= i < |best| ==> best[i].slot == at[i]
    ensures var h := Hit(-Differing(query, codes, s), s); h in candidates && h !in best
  {
  }

  // ---------------------------------------------------------------- the bounded heap

  lemma {:induction false} InsertWorst(x: Hit, s: seq<Hit>)
    requires Ranked(s) && s != [] && !Before(x, s[|s| - 1])
    ensures Take(Insert(x, s), |s|) == s
  {
    if !Before(s[0], x) {
      assert s[0] == x;
      forall i | 0 <= i < |s|
        ensures s[i] == x
      {
        assert !Before(s[|s| - 1], s[i]) || i == |s| - 1; assert !Before(s[i], s[0]) || i == 0;
      }
    } else if |s| > 1 {
      InsertWorst(x, s[1..]);
      assert Take(Insert(x, s), |s|) == [s[0]] + Take(Insert(x, s[1..]), |s| - 1);
    }
  }

  lemma {:induction false} InsertBetter(x: Hit, s: seq<Hit>)
    requires Ranked(s) && s != [] && Before(x, s[|s| - 1])
    ensures Take(Insert(x, s), |s|) == Insert(x, s[..|s| - 1])
  {
    var init := s[..|s| - 1];
    if !Before(s[0], x) {
      assert Insert(x, s) == [x] + s;
      assert Insert(x, init) == [x] + init;
    } else {
      InsertBetter(x, s[1..]);
      assert s[1..][..|s| - 2] == init[1..];
      assert Take(Insert(x, s), |s|) == [s[0]] + Take(Insert(x, s[1..]), |s| - 1);
    }
  }

  /** What the heap holds: the k best seen so far, in no particular order. */
  ghost predicate HeapOf(heap: seq<Hit>, seen: seq<Hit>, k: nat) {
    multiset(heap) == multiset(TopK(seen, k))
  }

  predicate Worst(heap: seq<Hit>, i: nat)
    requires i < |heap|
  {
    forall j :: 0 <= j < |heap| ==> !Before(heap[i], heap[j])
  }

  lemma TopKPush(seen: seq<Hit>, x: Hit, k: nat)
    ensures TopK(seen + [x], k) == Take(Insert(x, TopK(seen, k)), k)
  {
    TopKSwap(seen, [x], k);
    TopKCons(x, seen, k);
  }

  lemma HeapGrows(heap: seq<Hit>, seen: seq<Hit>, x: Hit, k: nat)
    requires HeapOf(heap, seen, k) && |heap| < k
    ensures HeapOf(heap + [x], seen + [x], k)
  {
    SameSize(heap, TopK(seen, k));
    TopKPush(seen, x, k);
    hide TopK;
    InsertMultiset(x, TopK(seen, k));
    assert TopK(seen + [x], k) == Insert(x, TopK(seen, k));
  }

  lemma SameSize(a: seq<Hit>, b: seq<Hit>)
    requires multiset(a) == multiset(b)
    ensures |a| == |b|
  {
    assert |multiset(a)| == |a| && |multiset(b)| == |b|;
  }

  /** The root of a full heap is the last of the ranking. */
  lemma WorstIsLast(heap: seq<Hit>, best: seq<Hit>, w: nat)
    requires Ranked(best) && best != [] && multiset(heap) == multiset(best) && w < |heap| && Worst(heap, w)
    ensures heap[w] == best[|best| - 1]
  {
    var last := best[|best| - 1];
    assert last in multiset(best) && heap[w] in multiset(heap);
    assert last in heap && heap[w] in best;
    var j :| 0 <= j < |heap| && heap[j] == last;
    var i :| 0 <= i < |best| && best[i] == heap[w];
    assert !Before(heap[w], heap[j]);
    assert i < |best| - 1 ==> !Before(best[|best| - 1], best[i]);
  }

  lemma HasWorst(heap: seq<Hit>, seen: seq<Hit>, k: nat)
    requires HeapOf(heap, seen, k) && heap != []
    ensures exists w :: 0 <= w < |heap| && Worst(heap, w)
  {
    var best := TopK(seen, k);
    SortedRanked(seen);
    SameSize(heap, best);
    hide TopK;
    var last := best[|best| - 1];
    assert last in multiset(best);
    var w :| 0 <= w < |heap| && heap[w] == last;
    forall j | 0 <= j < |heap| ensures !Before(heap[w], heap[j]) {
      assert heap[j] in multiset(heap);
      var i :| 0 <= i < |best| && best[i] == heap[j];
      assert i < |best| - 1 ==> !Before(best[|best| - 1], best[i]);
    }
    assert Worst(heap, w);
  }

  lemma HeapKept(heap: seq<Hit>, seen: seq<Hit>, x: Hit, k: nat, w: nat)
    requires HeapOf(heap, seen, k) && |heap| == k && w < |heap| && Worst(heap, w) && !Before(x, heap[w])
    ensures HeapOf(heap, seen + [x], k)
  {
    var best := TopK(seen, k);
    SameSize(heap, best);
    SortedRanked(seen);
    WorstIsLast(heap, best, w);
    TopKPush(seen, x, k);
    InsertWorst(x, best);
  }

  lemma HeapSwapped(heap: seq<Hit>, seen: seq<Hit>, x: Hit, k: nat, w: nat)
    requires HeapOf(heap, seen, k) && |heap| == k && w < |heap| && Worst(heap, w) && Before(x, heap[w])
    ensures HeapOf(heap[..w] + heap[w + 1..] + [x], seen + [x], k)
  {
    var best := TopK(seen, k);
    SameSize(heap, best);
    SortedRanked(seen);
    WorstIsLast(heap, best, w);
    TopKPush(seen, x, k);
    InsertBetter(x, best);
    hide TopK;
    InsertMultiset(x, best[..k - 1]);
    TakenOut(heap, w);
    TakenOut(best, k - 1);
    assert best[..k - 1] + best[k..] == best[..k - 1];
    Cancel(heap[w], multiset(heap[..w] + heap[w + 1..]), multiset(best[..k - 1]));
  }

  /** Offers one candidate to the heap. */
  method Offer(heap0: seq<Hit>, x: Hit, k: nat, ghost seen: seq<Hit>) returns (heap: seq<Hit>)
    requires HeapOf(heap0, seen, k) && |heap0| <= k && k > 0
    ensures HeapOf(heap, seen + [x], k) && |heap| <= k
  {
    heap := heap0;
    if |heap| < k {
      HeapGrows(heap, seen, x, k);
      heap := heap + [x];
    } else {
      HasWorst(heap, seen, k);
      var w :| 0 <= w < |heap| && Worst(heap, w);
      if Before(x, heap[w]) {
        HeapSwapped(heap, seen, x, k, w);
        heap := heap[..w] + heap[w + 1..] + [x];
      } else {
        HeapKept(heap, seen, x, k, w);
      }
    }
  }

  /** `topk_hamming_slots`: the k nearest codes among the yielded slots, ties to the lower slot, whatever
      order the slots come in. */
  method TopkHammingSlots(query: seq<bv8>, codes: seq<bv8>, slots: seq<nat>, k: nat)
    returns (out: seq<Hit>, ghost at: seq<nat>)
    ensures out == if query == [] then [] else TopK(HitsAt(query, codes, slots), k)
    ensures |out| <= k && ScoredAt(query, codes, out, at)
    ensures query != [] ==> Nearest(query, codes, SetOf(slots), at)
    ensures query != [] && |out| < k ==> forall s :: s in slots && InChain(query, codes, s) ==> s in at
  {
    if k == 0 || query == [] {
      return [], [];
    }
    var heap: seq<Hit> := [];
    EmptyHeap(query, codes, slots, k);
    hide TopK, HeapOf, HitsAt, Nearest, ScoredAt;
    for i := 0 to |slots|
      invariant HeapOf(heap, HitsAt(query, codes, slots[..i]), k) && |heap| <= k
    {
      HitsAtStep(query, codes, slots, i);
      ghost var seen := HitsAt(query, codes, slots[..i]);
      var hit := Score(query, codes, slots[i]);
      if hit.Some? {
        heap := Offer(heap, hit.value, k, seen);
      }
      assert hit.None? ==> seen + [] == seen;
    }
    assert slots[..|slots|] == slots;
    out := Sorted(heap);
    HeapSorted(heap, HitsAt(query, codes, slots), k);
    at := SlotsAreNearest(query, codes, slots, k);
  }

  lemma SlotsAreNearest(query: seq<bv8>, codes: seq<bv8>, slots: seq<nat>, k: nat) returns (at: seq<nat>)
    ensures Nearest(query, codes, SetOf(slots), at) && |at| <= k
    ensures ScoredAt(query, codes, TopK(HitsAt(query, codes, slots), k), at)
    ensures |at| < k ==> forall s :: s in slots && InChain(query, codes, s) ==> s in at
  {
    hide HitsAt, Differing, TopK, Nearest, ScoredAt;
    forall h: Hit ensures h in HitsAt(query, codes, slots) <==>
                          && h.slot >= 0 && h.slot in slots && InChain(query, codes, h.slot)
                          && h.score == -Differing(query, codes, h.slot)
    {
      HitsAtMember(query, codes, slots, h);
    }
    at := BestAreNearest(query, codes, SetOf(slots), HitsAt(query, codes, slots), k);
  }

  lemma HitsAtStep(query: seq<bv8>, codes: seq<bv8>, slots: seq<nat>, i: nat)
    requires i < |slots|
    ensures HitsAt(query, codes, slots[..i + 1]) == HitsAt(query, codes, slots[..i]) + HitAt(query, codes, slots[i])
  {
    assert slots[..i + 1][..i] == slots[..i];
  }

  /** A slot whose code runs past the chain is skipped. */
  method Score(query: seq<bv8>, codes: seq<bv8>, slot: nat) returns (hit: Option<Hit>)
    ensures HitAt(query, codes, slot) == if hit.Some? then [hit.value] else []
  {
    var at := Offset(|query|, slot);
    if at + |query| > |codes| {
      return None;
    }
    var d := Hamming(query, codes[at..at + |query|]);
    hit := Some(Hit(-(d as int), slot));
  }

  lemma EmptyHeap(query: seq<bv8>, codes: seq<bv8>, slots: seq<nat>, k: nat)
    ensures HeapOf([], HitsAt(query, codes, slots[..0]), k)
  {
  }

  lemma HeapSorted(heap: seq<Hit>, seen: seq<Hit>, k: nat)
    requires HeapOf(heap, seen, k)
    ensures Sorted(heap) == TopK(seen, k)
  {
    SortedRanked(heap);
    SortedMultiset(heap);
    SortedRanked(seen);
    RankedUnique(Sorted(heap), TopK(seen, k));
  }

  // ---------------------------------------------------------------- dropping the dead

  predicate Live(dead: seq<bv8>, h: Hit) {
    h.slot < 0 || !IsSet(dead, h.slot)
  }

  function LiveOnly(s: seq<Hit>, dead: seq<bv8>): (r: seq<Hit>)
    ensures |r| <= |s|
  {
    if s == [] then [] else
      LiveOnly(s[..|s| - 1], dead) + if Live(dead, s[|s| - 1]) then [s[|s| - 1]] else []
  }

  lemma {:induction false} LiveOnlyJoin(a: seq<Hit>, b: seq<Hit>, dead: seq<bv8>)
    ensures LiveOnly(a + b, dead) == LiveOnly(a, dead) + LiveOnly(b, dead)
  {
    if b == [] {
      assert a + b == a;
    } else {
      LiveOnlyJoin(a, b[..|b| - 1], dead);
      assert (a + b)[..|a + b| - 1] == a + b[..|b| - 1];
    }
  }

  lemma {:induction false} LiveOnlyMember(s: seq<Hit>, dead: seq<bv8>, h: Hit)
    ensures multiset(LiveOnly(s, dead))[h] == if Live(dead, h) then multiset(s)[h] else 0
  {
    if s != [] {
      LiveOnlyMember(s[..|s| - 1], dead, h);
      assert s == s[..|s| - 1] + [s[|s| - 1]];
    }
  }

  lemma {:induction false} LiveOnlyRanked(s: seq<Hit>, dead: seq<bv8>)
    requires Ranked(s)
    ensures Ranked(LiveOnly(s, dead))
  {
    if s != [] {
      var init := s[..|s| - 1];
      LiveOnlyRanked(init, dead);
      forall i | 0 <= i < |LiveOnly(init, dead)| ensures !Before(s[|s| - 1], LiveOnly(init, dead)[i]) {
        var h := LiveOnly(init, dead)[i];
        LiveOnlyMember(init, dead, h);
        assert h in multiset(LiveOnly(init, dead));
        assert h in init;
      }
    }
  }

  /** Ranking and filtering commute. */
  lemma LiveOnlySorted(s: seq<Hit>, dead: seq<bv8>)
    ensures LiveOnly(Sorted(s), dead) == Sorted(LiveOnly(s, dead))
  {
    var a, b := LiveOnly(Sorted(s), dead), Sorted(LiveOnly(s, dead));
    SortedRanked(s);
    SortedMultiset(s);
    LiveOnlyRanked(Sorted(s), dead);
    SortedRanked(LiveOnly(s, dead));
    SortedMultiset(LiveOnly(s, dead));
    forall h: Hit ensures multiset(a)[h] == multiset(b)[h] {
      LiveOnlyMember(s, dead, h);
      LiveOnlyMember(Sorted(s), dead, h);
    }
    RankedUnique(a, b);
  }

  /** How many hits the search asks for. */
  function Want(k: nat, len: nat, dead: seq<bv8>): (w: nat)
    ensures dead == [] ==> w == k
    ensures k <= len ==> w >= k
    ensures dead != [] ==> w <= len && (len < k + 8 ==> w == len) && (len >= k + 8 ==> w >= k + 8)
    ensures dead != [] && w < len ==> w >= k + 8 && w >= 2 * k && (w == k + 8 || w == 2 * k)
    ensures dead != [] && w == len ==> len <= k + 8 || len <= 2 * k
  {
    if dead == [] then k else
      var wide := if 2 * k < k + 8 then k + 8 else 2 * k;
      if wide < len then wide else len
  }

  /** What `search_slots` returns for these candidates. */
  function Answer(candidates: seq<Hit>, dead: seq<bv8>, k: nat, want: nat): seq<Hit> {
    Take(LiveOnly(TopK(candidates, want), dead), k)
  }

  /** Whatever is returned is a prefix of the ranked live candidates: no dead slot, nothing skipped. */
  lemma AnswerIsLivePrefix(candidates: seq<Hit>, dead: seq<bv8>, k: nat, want: nat)
    ensures Answer(candidates, dead, k, want)
              == Take(Sorted(LiveOnly(candidates, dead)), |Answer(candidates, dead, k, want)|)
  {
    LiveSplit(candidates, dead, want);
  }

  lemma LiveSplit(candidates: seq<Hit>, dead: seq<bv8>, want: nat)
    ensures Sorted(LiveOnly(candidates, dead))
         == LiveOnly(TopK(candidates, want), dead) + LiveOnly(Sorted(candidates)[|TopK(candidates, want)|..], dead)
  {
    var top, rest := TopK(candidates, want), Sorted(candidates)[|TopK(candidates, want)|..];
    assert Sorted(candidates) == top + rest;
    LiveOnlyJoin(top, rest, dead);
    LiveOnlySorted(candidates, dead);
  }

  /** How many slots of a ranking are dead. */
  function DeadCount(s: seq<Hit>, dead: seq<bv8>): nat {
    |s| - |LiveOnly(s, dead)|
  }

  /** Fewer than `min(k, live)` hits come back exactly when more than `want - k` dead slots rank among the
      first `want` and some live slot ranks behind them. */
  lemma ShortIff(candidates: seq<Hit>, dead: seq<bv8>, k: nat, want: nat)
    requires k <= want
    ensures var live := |LiveOnly(candidates, dead)|; var top := TopK(candidates, want);
            |Answer(candidates, dead, k, want)| < (if k < live then k else live)
            <==> DeadCount(top, dead) > want - k && |LiveOnly(top, dead)| < live
  {
    LiveSplit(candidates, dead, want);
    var top, rest := TopK(candidates, want), Sorted(candidates)[|TopK(candidates, want)|..];
    assert |Sorted(LiveOnly(candidates, dead))| == |LiveOnly(candidates, dead)|;
    assert |top| < want ==> rest == [];
  }

  lemma {:induction false} FewHits(query: seq<bv8>, codes: seq<bv8>, slots: seq<nat>)
    ensures |HitsAt(query, codes, slots)| <= |slots|
  {
    if slots != [] { FewHits(query, codes, slots[..|slots| - 1]); }
  }

  lemma {:induction false} NoDeadAllLive(s: seq<Hit>)
    ensures LiveOnly(s, []) == s
  {
    if s != [] { NoDeadAllLive(s[..|s| - 1]); }
  }

  /** With no tombstone bitmap the k best are returned, never fewer. */
  lemma NeverShortWithoutTombstones(candidates: seq<Hit>, k: nat)
    ensures Answer(candidates, [], k, k) == TopK(candidates, k)
  {
    NoDeadAllLive(TopK(candidates, k));
  }

  // ---------------------------------------------------------------- the search

  function Unmasked(n: nat, mask: Option<seq<bool>>): (r: seq<nat>)
    ensures forall s: nat :: s in r <==> s < n && (mask.Some? ==> s < |mask.value| && mask.value[s])
    ensures |r| <= n && forall i :: 0 <= i < |r| ==> r[i] < n
  {
    if n == 0 then [] else
      var r := Unmasked(n - 1, mask);
      var keep := mask.None? || (n - 1 < |mask.value| && mask.value[n - 1]);
      assert forall s: nat :: s in r + [n - 1] <==> s in r || s == n - 1;
      if keep then r + [n - 1] else r
  }

  datatype BqHit = BqHit(score: int, id: Id)

  function Reported(hits: seq<Hit>, ids: seq<Id>): (r: seq<BqHit>)
    requires Within(hits, |ids|)
    ensures |r| == |hits|
            && forall i :: 0 <= i < |hits| ==>
                 0 <= hits[i].slot < |ids| && r[i] == BqHit(hits[i].score, ids[hits[i].slot])
  {
    seq(|hits|, i requires 0 <= i < |hits| => BqHit(hits[i].score, ids[hits[i].slot]))
  }

  lemma {:induction false} HitsAtSlots(query: seq<bv8>, codes: seq<bv8>, slots: seq<nat>, n: nat)
    requires forall i :: 0 <= i < |slots| ==> slots[i] < n
    ensures forall i :: 0 <= i < |HitsAt(query, codes, slots)| ==> 0 <= HitsAt(query, codes, slots)[i].slot < n
  {
    if slots != [] { HitsAtSlots(query, codes, slots[..|slots| - 1], n); }
  }

  lemma LiveOnlySlots(s: seq<Hit>, dead: seq<bv8>, n: nat)
    requires Within(s, n)
    ensures Within(LiveOnly(s, dead), n)
  {
    if s != [] { LiveOnlySlots(s[..|s| - 1], dead, n); }
  }

  /** Filters the hits in order and stops at the k-th live one. */
  method TakeLive(hits: seq<Hit>, dead: seq<bv8>, k: nat) returns (out: seq<Hit>)
    requires k > 0
    ensures out == Take(LiveOnly(hits, dead), k)
  {
    out := [];
    for i := 0 to |hits|
      invariant |out| < k && out == LiveOnly(hits[..i], dead)
    {
      assert hits[..i + 1][..i] == hits[..i];
      if Live(dead, hits[i]) {
        out := out + [hits[i]];
        if |out| == k {
          assert hits == hits[..i + 1] + hits[i + 1..];
          LiveOnlyJoin(hits[..i + 1], hits[i + 1..], dead);
          return;
        }
      }
    }
    assert hits[..|hits|] == hits;
  }

  /** The hits a search over these slots may return. */
  function AnswerFor(x: BqImage, code: seq<bv8>, k: nat, mask: Option<seq<bool>>): seq<Hit> {
    Answer(HitsAt(code, x.codes, Unmasked(x.rows, mask)), x.dead, k, Want(k, x.rows, x.dead))
  }

  /** When a search of the index comes back short, stated for the over-fetch it really uses. */
  lemma SearchShortIff(x: BqImage, code: seq<bv8>, k: nat, mask: Option<seq<bool>>)
    ensures var candidates := HitsAt(code, x.codes, Unmasked(x.rows, mask));
            var live, want := |LiveOnly(candidates, x.dead)|, Want(k, x.rows, x.dead);
            var top := TopK(candidates, want);
            |AnswerFor(x, code, k, mask)| < (if k < live then k else live)
            <==> DeadCount(top, x.dead) > want - k && |LiveOnly(top, x.dead)| < live
  {
    var slots := Unmasked(x.rows, mask);
    var candidates, want := HitsAt(code, x.codes, slots), Want(k, x.rows, x.dead);
    FewHits(code, x.codes, slots);
    if k <= want {
      ShortIff(candidates, x.dead, k, want);
    } else {
      LiveSplit(candidates, x.dead, want);
    }
  }

  lemma AnswerInIndex(x: BqImage, code: seq<bv8>, k: nat, mask: Option<seq<bool>>)
    ensures Within(AnswerFor(x, code, k, mask), x.rows)
  {
    var slots := Unmasked(x.rows, mask);
    var candidates := HitsAt(code, x.codes, slots);
    HitsAtSlots(code, x.codes, slots, x.rows);
    SortedWithin(candidates, x.rows);
    hide HitsAt, Unmasked, Sorted, Want, LiveOnly;
    LiveOnlySlots(TopK(candidates, Want(k, x.rows, x.dead)), x.dead, x.rows);
  }

  /** The slots a search may return: live, and let through by the mask. */
  function Searched(x: BqImage, mask: Option<seq<bool>>): set<nat> {
    set s: nat | s < x.rows && !IsSet(x.dead, s) && (mask.Some? ==> s < |mask.value| && mask.value[s])
  }

  lemma LiveCandidate(x: BqImage, code: seq<bv8>, mask: Option<seq<bool>>, h: Hit)
    ensures h in LiveOnly(HitsAt(code, x.codes, Unmasked(x.rows, mask)), x.dead) <==>
            && h.slot >= 0 && h.slot in Searched(x, mask) && InChain(code, x.codes, h.slot)
            && h.score == -Differing(code, x.codes, h.slot)
  {
    hide HitsAt, LiveOnly, Differing, IsSet;
    var candidates := HitsAt(code, x.codes, Unmasked(x.rows, mask));
    HitsAtMember(code, x.codes, Unmasked(x.rows, mask), h);
    LiveOnlyMember(candidates, x.dead, h);
    assert h in LiveOnly(candidates, x.dead) <==> multiset(LiveOnly(candidates, x.dead))[h] > 0;
    assert h in candidates <==> multiset(candidates)[h] > 0;
  }

  /** The answer is the nearest live slots, however few of them the over-fetch left. */
  lemma AnswerIsNearest(x: BqImage, code: seq<bv8>, k: nat, mask: Option<seq<bool>>) returns (at: seq<nat>)
    ensures Nearest(code, x.codes, Searched(x, mask), at) && |at| <= k
    ensures ScoredAt(code, x.codes, AnswerFor(x, code, k, mask), at)
  {
    hide HitsAt, LiveOnly, Differing, Searched, Nearest, Want, Unmasked, Sorted;
    var candidates := HitsAt(code, x.codes, Unmasked(x.rows, mask));
    var live, answer := LiveOnly(candidates, x.dead), AnswerFor(x, code, k, mask);
    AnswerIsLivePrefix(candidates, x.dead, k, Want(k, x.rows, x.dead));
    assert answer == TopK(live, |answer|);
    forall h: Hit ensures h in live <==>
                          && h.slot >= 0 && h.slot in Searched(x, mask) && InChain(code, x.codes, h.slot)
                          && h.score == -Differing(code, x.codes, h.slot)
    {
      LiveCandidate(x, code, mask, h);
    }
    at := BestAreNearest(code, x.codes, Searched(x, mask), live, |answer|);
  }

  lemma ReportedScores(x: BqImage, code: seq<bv8>, hits: seq<Hit>, at: seq<nat>, found: seq<BqHit>)
    requires Within(hits, |x.ids|) && found == Reported(hits, x.ids) && ScoredAt(code, x.codes, hits, at)
    ensures |found| == |at| && forall i :: 0 <= i < |at| ==>
              at[i] < |x.ids| && InChain(code, x.codes, at[i])
              && found[i] == BqHit(-Differing(code, x.codes, at[i]), x.ids[at[i]])
  {
    hide Differing;
  }

  /** `search_slots`: centre and pack the query, rank the unmasked slots, drop the dead. A query of the
      wrong length finds nothing. */
  method SearchSlots(x: BqImage, query: seq<int>, k: nat, mask: Option<seq<bool>>)
    returns (found: seq<BqHit>, ghost code: seq<bv8>, ghost at: seq<nat>)
    requires |x.ids| == x.rows
    ensures x.rows == 0 || k == 0 || |query| != x.dim || x.dim == 0 ==> found == []
    ensures found != [] ==> IsCode(code, Centered(query, x.mean)) && Nearest(code, x.codes, Searched(x, mask), at)
    ensures |found| == |at| <= k
    ensures forall i :: 0 <= i < |at| ==>
              at[i] < |x.ids| && InChain(code, x.codes, at[i])
              && found[i] == BqHit(-Differing(code, x.codes, at[i]), x.ids[at[i]])
    ensures x.rows > 0 && k > 0 && |query| == x.dim > 0 ==>
              && IsCode(code, Centered(query, x.mean))
              && Within(AnswerFor(x, code, k, mask), |x.ids|) && found == Reported(AnswerFor(x, code, k, mask), x.ids)
  {
    code, at := [], [];
    if x.rows == 0 || k == 0 || |query| != x.dim {
      return [], code, at;
    }
    var packed := PackSigns(Centered(query, x.mean));
    assert IsCode(packed, Centered(query, x.mean));
    assert |query| > 0 ==> packed != [];
    code := packed;
    hide IsCode, HitsAt, Unmasked, Want, LiveOnly, TopK, Within, Nearest, ScoredAt, Searched;
    var hits, _ := TopkHammingSlots(packed, x.codes, Unmasked(x.rows, mask), Want(k, x.rows, x.dead));
    if packed == [] {
      NothingAlive(x.dead);
      return [], code, at;
    }
    var live := TakeLive(hits, x.dead, k);
    AnswerInIndex(x, packed, k, mask);
    found := Reported(live, x.ids);
    at := AnswerIsNearest(x, packed, k, mask);
    ReportedScores(x, packed, live, at, found);
  }

  lemma NothingAlive(dead: seq<bv8>)
    ensures LiveOnly([], dead) == []
  {
  }
}
