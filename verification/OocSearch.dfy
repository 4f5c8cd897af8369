/** Out-of-core search: score the gathered rows, whole or in chunks, and turn compact slots back into
    external ids. It answers as a masked scan of the whole index would, for any number of threads and
    whatever order the scoring kernel gives equal scores. */
module OocSearch {
  import opened Options
  import opened Slots
  import opened IdMap
  import opened Topk
  import opened Candidates
  import opened OocGather

  /** How near the query one stored row is: its packed code and its scale. */
  type Scorer = (seq<bv8>, nat) -> int

  /** The top-k kernel, given the rows' scores and a slot mask. */
  type Kernel = (seq<int>, seq<bool>, nat) -> seq<Hit>

  const MIN_ROWS_PER_SCAN_CHUNK: nat := 2048

  ghost predicate Ranks(kernel: Kernel) {
    forall scores, mask, k: nat :: |scores| == |mask| ==>
      IsTopK(kernel(scores, mask, k), HitsIn(scores, mask, 0, |scores|), k)
  }

  /** Equal scores come in slot order. */
  ghost predicate RanksBySlot(kernel: Kernel) {
    forall scores, mask, k: nat :: |scores| == |mask| ==>
      kernel(scores, mask, k) == TopK(HitsIn(scores, mask, 0, |scores|), k)
  }

  /** The chunk count: at least one, and never so many that a chunk falls below the floor. */
  function CapScanChunks(want: nat, rows: nat): (t: nat)
    ensures t >= 1
    ensures t > 1 ==> t <= want && t * MIN_ROWS_PER_SCAN_CHUNK <= rows
    ensures forall u: nat :: u <= want && u * MIN_ROWS_PER_SCAN_CHUNK <= rows ==> u <= t
  {
    var byRows := rows / MIN_ROWS_PER_SCAN_CHUNK;
    var capped := if want < byRows then want else byRows;
    if capped < 1 then 1 else capped
  }

  function Scores(rows: seq<seq<bv8>>, scales: seq<nat>, score: Scorer): (r: seq<int>)
    requires |rows| == |scales|
    ensures |r| == |rows| && forall i :: 0 <= i < |rows| ==> r[i] == score(rows[i], scales[i])
  {
    seq(|rows|, i requires 0 <= i < |rows| => score(rows[i], scales[i]))
  }

  /** No allowlist lets everything through. */
  function MaskOr(mask: Option<seq<bool>>, n: nat): (r: seq<bool>)
    ensures |r| == if mask.Some? then |mask.value| else n
  {
    if mask.Some? then mask.value else seq(n, _ => true)
  }

  // ---------------------------------------------------------------- one chunk

  /** The result of searching compact rows `lo ..< hi`: a best-k list of them, exact under the slot tie-break. */
  ghost predicate Answers(hits: seq<Hit>, kernel: Kernel, scores: seq<int>, mask: seq<bool>, lo: nat, hi: nat, k: nat)
    requires hi <= |scores| && hi <= |mask|
  {
    && IsTopK(hits, HitsIn(scores, mask, lo, hi), k)
    && (RanksBySlot(kernel) ==> hits == TopK(HitsIn(scores, mask, lo, hi), k))
  }

  /** A best-k list stays one when the slots are renumbered in order. */
  lemma LiftedIsTopK(r: seq<Hit>, s: seq<Hit>, to: seq<int>, k: nat)
    requires Within(s, |to|) && IsTopK(r, s, k)
    ensures Within(r, |to|) && IsTopK(Lift(r, to), Lift(s, to), k)
  {
    LiftedContained(r, s, to);
    IsTopKErased(r, s, k);
    LiftErased(r, to);
    LiftErased(s, to);
    hide *;
    ErasedIsTopK(Lift(r, to), Lift(s, to), k);
  }

  lemma KernelHere(kernel: Kernel, scores: seq<int>, mask: seq<bool>, k: nat)
    requires Ranks(kernel) && |scores| == |mask|
    ensures Answers(kernel(scores, mask, k), kernel, scores, mask, 0, |scores|, k)
  {
    hide HitsIn, TopK, IsTopK;
  }

  lemma CutAnswers(found: seq<Hit>, kernel: Kernel, scores: seq<int>, mask: seq<bool>, cs: seq<int>, cm: seq<bool>,
      lo: nat, k: nat)
    requires CutOut(cs, scores, lo) && CutOut(cm, mask, lo) && |cs| == |cm|
    requires Answers(found, kernel, cs, cm, 0, |cs|, k)
    ensures Within(found, |cs|) && Answers(Lift(found, Span(lo, |cs|)), kernel, scores, mask, lo, lo + |cs|, k)
  {
    HitsCutOut(scores, mask, cs, cm, lo, |cs|);
    hide HitsIn, TopK, IsTopK, RanksBySlot, CutOut;
    LiftedIsTopK(found, HitsIn(cs, cm, 0, |cs|), Span(lo, |cs|), k);
    assert KeepsOrder(HitsIn(cs, cm, 0, |cs|), Span(lo, |cs|));
    hide KeepsOrder;
    TopKLifted(HitsIn(cs, cm, 0, |cs|), Span(lo, |cs|), k);
  }

  lemma ScoresCut(codes: seq<bv8>, scales: seq<nat>, stride: nat, lo: nat, hi: nat, score: Scorer)
    requires Aligned(codes, stride, |scales|) && lo <= hi <= |scales|
    ensures Offset(stride, lo) <= Offset(stride, hi) <= |codes|
    ensures var cut := codes[Offset(stride, lo)..Offset(stride, hi)];
            Aligned(cut, stride, hi - lo)
            && Scores(Records(cut, stride, hi - lo), scales[lo..hi], score)
                 == Scores(Records(codes, stride, |scales|), scales, score)[lo..hi]
  {
    SliceRecords(codes, stride, |scales|, lo, hi);
    hide Offset, Aligned, Records;
  }

  /** Searches rows `lo ..< hi` on their own slices, then lifts the chunk's slots. */
  method SearchCompactChunk(codes: seq<bv8>, scales: seq<nat>, stride: nat, lo: nat, hi: nat, score: Scorer,
      kernel: Kernel, k: nat, allow: Option<seq<bool>>) returns (hits: seq<Hit>)
    requires Aligned(codes, stride, |scales|) && lo <= hi <= |scales| && Ranks(kernel)
    requires allow.Some? ==> |allow.value| == |scales|
    ensures Answers(hits, kernel, Scores(Records(codes, stride, |scales|), scales, score), MaskOr(allow, |scales|),
              lo, hi, k)
  {
    hide *;
    var cs, cm := ScoreChunk(codes, scales, stride, lo, hi, score, allow);
    hits := kernel(cs, cm, k);
    ghost var found := hits;
    KernelHere(kernel, cs, cm, k);
    ghost var all, mask := Scores(Records(codes, stride, |scales|), scales, score), MaskOr(allow, |scales|);
    CutAnswers(found, kernel, all, mask, cs, cm, lo, k);
    hits := LiftSlots(hits, lo, |cs|);
  }

  /** The scores and the mask of the chunk's own rows. */
  method ScoreChunk(codes: seq<bv8>, scales: seq<nat>, stride: nat, lo: nat, hi: nat, score: Scorer,
      allow: Option<seq<bool>>)
    returns (cs: seq<int>, cm: seq<bool>)
    requires Aligned(codes, stride, |scales|) && lo <= hi <= |scales|
    requires allow.Some? ==> |allow.value| == |scales|
    ensures |cs| == |cm| == hi - lo
    ensures CutOut(cs, Scores(Records(codes, stride, |scales|), scales, score), lo)
            && CutOut(cm, MaskOr(allow, |scales|), lo)
  {
    ScoresCut(codes, scales, stride, lo, hi, score);
    hide Offset, Aligned, Records;
    cs := Scores(Records(codes[Offset(stride, lo)..Offset(stride, hi)], stride, hi - lo), scales[lo..hi], score);
    cm := if allow.Some? then allow.value[lo..hi] else seq(hi - lo, _ => true);
  }

  /** Adds the chunk's first row to every slot. */
  method LiftSlots(found: seq<Hit>, lo: nat, n: nat) returns (hits: seq<Hit>)
    requires Within(found, n)
    ensures hits == Lift(found, Span(lo, n))
  {
    hits := found;
    if lo != 0 {
      for i := 0 to |hits|
        invariant |hits| == |found|
        invariant forall j :: 0 <= j < |found| ==>
                  hits[j] == Hit(found[j].score, found[j].slot + if j < i then lo else 0)
      {
        hits := hits[i := Hit(hits[i].score, hits[i].slot + lo)];
      }
    }
  }

  // ---------------------------------------------------------------- all chunks

  /** Rounds up, so a non-empty scan has non-empty chunks. */
  function DivCeil(n: nat, t: nat): (r: nat)
    requires t > 0
    ensures n > 0 ==> r > 0
  {
    (n + t - 1) / t
  }

  ghost predicate AllAnswered(kernel: Kernel, parts: seq<seq<Hit>>, locals: seq<seq<Hit>>, k: nat) {
    && |parts| == |locals|
    && forall i :: 0 <= i < |parts| ==>
         IsTopK(locals[i], parts[i], k) && (RanksBySlot(kernel) ==> locals[i] == TopK(parts[i], k))
  }

  lemma OneMoreAnswered(kernel: Kernel, scores: seq<int>, mask: seq<bool>, parts: seq<seq<Hit>>,
      locals: seq<seq<Hit>>, lo: nat, hi: nat, local: seq<Hit>, k: nat)
    requires lo <= hi <= |scores| == |mask| && AllAnswered(kernel, parts, locals, k)
             && Flatten(parts) == HitsIn(scores, mask, 0, lo)
    requires Answers(local, kernel, scores, mask, lo, hi, k)
    ensures AllAnswered(kernel, parts + [HitsIn(scores, mask, lo, hi)], locals + [local], k)
    ensures Flatten(parts + [HitsIn(scores, mask, lo, hi)]) == HitsIn(scores, mask, 0, hi)
  {
    hide HitsIn, TopK, IsTopK, RanksBySlot;
    HitsJoin(scores, mask, 0, lo, hi);
    var part := HitsIn(scores, mask, lo, hi);
    assert (parts + [part])[..|parts|] == parts;
    assert Flatten(parts + [part]) == Flatten(parts) + part;
    hide Flatten;
  }

  lemma AnswersMerged(kernel: Kernel, scores: seq<int>, mask: seq<bool>, parts: seq<seq<Hit>>, locals: seq<seq<Hit>>,
      n: nat, k: nat)
    requires n <= |scores| == |mask| && Flatten(parts) == HitsIn(scores, mask, 0, n)
             && AllAnswered(kernel, parts, locals, k)
    ensures Answers(TopK(Flatten(locals), k), kernel, scores, mask, 0, n, k)
  {
    hide RanksBySlot, TopK, IsTopK, HitsIn, Flatten;
    MergedIsTopK(parts, locals, k);
    if RanksBySlot(kernel) { TopKParts(parts, locals, k); }
  }

  /** Cuts the rows into `t` chunks, searches each, and merges the local lists. */
  method SearchCompactParallel(codes: seq<bv8>, scales: seq<nat>, stride: nat, score: Scorer, kernel: Kernel, k: nat,
      allow: Option<seq<bool>>, t: nat) returns (hits: seq<Hit>)
    requires Aligned(codes, stride, |scales|) && |scales| > 0 && t > 0 && Ranks(kernel)
    requires allow.Some? ==> |allow.value| == |scales|
    ensures Answers(hits, kernel, Scores(Records(codes, stride, |scales|), scales, score), MaskOr(allow, |scales|), 0,
              |scales|, k)
  {
    var n := |scales|;
    ghost var all, mask := Scores(Records(codes, stride, n), scales, score), MaskOr(allow, n);
    var chunk := DivCeil(n, t);
    var locals: seq<seq<Hit>> := [];
    ghost var parts: seq<seq<Hit>> := [];
    var s := 0;
    ghost var done := 0;
    assert Flatten(parts) == HitsIn(all, mask, 0, 0);
    hide Ranks, Offset, Aligned, Records, Scores, MaskOr, HitsIn, Flatten, Answers, TopK;
    while s < n
      invariant done == if s < n then s else n
      invariant Flatten(parts) == HitsIn(all, mask, 0, done) && AllAnswered(kernel, parts, locals, k)
    {
      var e := if s + chunk < n then s + chunk else n;
      var local := SearchCompactChunk(codes, scales, stride, s, e, score, kernel, k, allow);
      OneMoreAnswered(kernel, all, mask, parts, locals, s, e, local, k);
      locals, parts := locals + [local], parts + [HitsIn(all, mask, s, e)];
      s := s + chunk;
      done := e;
    }
    hits := MergeTopK(locals, k);
    AnswersMerged(kernel, all, mask, parts, locals, n, k);
  }

  // ---------------------------------------------------------------- the whole search

  /** A hit as the scan reports it. */
  datatype Scored = Scored(score: int, id: Id)

  datatype Found = Found(hits: seq<Scored>) | Corrupt

  predicate IdsKnown(ix: Ooc, slots: seq<int>) {
    forall i :: 0 <= i < |slots| ==> 0 <= slots[i] < |ix.slotToId|
  }

  function SlotsOf(hits: seq<Hit>): (r: seq<int>)
    ensures |r| == |hits| && forall i :: 0 <= i < |hits| ==> r[i] == hits[i].slot
  {
    seq(|hits|, i requires 0 <= i < |hits| => hits[i].slot)
  }

  /** Ids for slots; a slot past the id table is reported. */
  function Resolve(ix: Ooc, hits: seq<Hit>): (r: Found)
    ensures r.Found? <==> IdsKnown(ix, SlotsOf(hits))
    ensures r.Found? ==> (|r.hits| == |hits| && forall i :: 0 <= i < |hits| ==>
              0 <= hits[i].slot < |ix.slotToId| && r.hits[i] == Scored(hits[i].score, ix.slotToId[hits[i].slot]))
  {
    if IdsKnown(ix, SlotsOf(hits)) then
      assert forall i :: 0 <= i < |hits| ==> 0 <= SlotsOf(hits)[i] < |ix.slotToId|;
      Found(seq(|hits|, i requires 0 <= i < |hits| => Scored(hits[i].score, ix.slotToId[SlotsOf(hits)[i]])))
    else Corrupt
  }

  function AllowedAt(ix: Ooc, slots: seq<int>, allow: Option<set<Id>>): (r: seq<bool>)
    requires allow.Some? ==> IdsKnown(ix, slots)
    ensures |r| == |slots|
            && forall i :: 0 <= i < |slots| ==> (r[i] <==> (allow.Some? ==> ix.slotToId[slots[i]] in allow.value))
  {
    seq(|slots|, i requires 0 <= i < |slots| => allow.Some? ==> ix.slotToId[slots[i]] in allow.value)
  }

  function ScoresAt(ix: Ooc, slots: seq<int>, score: Scorer): (r: seq<int>)
    requires Loaded(ix) && InIndex(ix, slots)
    ensures |r| == |slots| && forall i :: 0 <= i < |slots| ==> r[i] == score(CodeAt(ix, slots[i]), ix.scales[slots[i]])
  {
    seq(|slots|, i requires 0 <= i < |slots| => score(CodeAt(ix, slots[i]), ix.scales[slots[i]]))
  }

  lemma GatherInIndex(ix: Ooc, probed: seq<nat>, dead: seq<bv8>)
    ensures InIndex(ix, GatherSlots(ix, probed, dead))
  {
    var slots := GatherSlots(ix, probed, dead);
    forall i | 0 <= i < |slots| ensures 0 <= slots[i] < ix.nVectors { GatheredMember(ix, probed, dead, slots[i]); }
  }

  lemma GatheredMember(ix: Ooc, probed: seq<nat>, dead: seq<bv8>, x: int)
    requires x in GatherSlots(ix, probed, dead)
    ensures 0 <= x < ix.nVectors
  {
    LiveInCellsMember(ix, dead, Probes(probed, |ix.cells|), x);
    LiveInMember(dead, CellRows(ix), ix.nVectors, x);
  }

  lemma HeldScores(ix: Ooc, codes: seq<bv8>, slots: seq<int>, scales: seq<nat>, score: Scorer)
    requires Holds(ix, codes, slots) && |scales| == |slots|
             && forall i :: 0 <= i < |slots| ==> scales[i] == ix.scales[slots[i]]
    ensures Scores(Records(codes, ix.stride, |slots|), scales, score) == ScoresAt(ix, slots, score)
  {
    assert Loaded(ix) && InIndex(ix, slots);
    hide Loaded;
    var rows := Records(codes, ix.stride, |slots|);
    assert rows == CodesAt(ix, slots);
    hide Records;
    assert forall i :: 0 <= i < |slots| ==> rows[i] == CodeAt(ix, slots[i]);
  }

  method GatherScales(ix: Ooc, slots: seq<int>) returns (scales: seq<nat>)
    requires Loaded(ix) && InIndex(ix, slots)
    ensures |scales| == |slots| && forall i :: 0 <= i < |slots| ==> scales[i] == ix.scales[slots[i]]
  {
    scales := [];
    for i := 0 to |slots|
      invariant |scales| == i && forall j :: 0 <= j < i ==> scales[j] == ix.scales[slots[j]]
    {
      scales := scales + [ix.scales[slots[i]]];
    }
  }

  /** Gathers, scores (in one piece, or in chunks when several threads are allowed and the rows are many
      enough), and maps back to ids. `local` is the ranking in compact slots. */
  method SearchOoc(ix: Ooc, probed: seq<nat>, dead: seq<bv8>, allow: Option<set<Id>>, score: Scorer, kernel: Kernel,
      k: nat, threads: nat)
    returns (found: Found, ghost local: seq<Hit>)
    requires Loaded(ix) && Ranks(kernel)
    ensures InIndex(ix, GatherSlots(ix, probed, dead))
    ensures allow.Some? && !IdsKnown(ix, GatherSlots(ix, probed, dead)) ==> found.Corrupt?
    ensures (allow.Some? ==> IdsKnown(ix, GatherSlots(ix, probed, dead))) ==>
              var slots := GatherSlots(ix, probed, dead);
              && Answers(local, kernel, ScoresAt(ix, slots, score), AllowedAt(ix, slots, allow), 0, |slots|, k)
              && Within(local, |slots|) && found == Resolve(ix, Lift(local, slots))
  {
    local := [];
    var runs, slots := PlanGather(ix, probed, dead);
    GatherInIndex(ix, probed, dead);
    if slots == [] {
      found := Found([]);
      EmptyAnswer(kernel, k);
      return;
    }
    var codes := GatherCodes(ix, runs);
    var scales := GatherScales(ix, slots);
    var mask: Option<seq<bool>> := None;
    if allow.Some? {
      if !IdsKnown(ix, slots) {
        return Corrupt, [];
      }
      mask := Some(AllowedAt(ix, slots, allow));
    }
    HeldScores(ix, codes, slots, scales, score);
    assert MaskOr(mask, |slots|) == AllowedAt(ix, slots, allow);
    assert Aligned(codes, ix.stride, |slots|);
    hide *;
    var hits := SearchCompact(codes, scales, ix.stride, score, kernel, k, mask, CapScanChunks(threads, |slots|));
    AnswerWithin(hits, kernel, ScoresAt(ix, slots, score), AllowedAt(ix, slots, allow), |slots|, k);
    local := hits;
    found := Resolve(ix, Lift(hits, slots));
  }

  lemma EmptyAnswer(kernel: Kernel, k: nat)
    ensures Answers([], kernel, [], [], 0, 0, k)
  {
  }

  lemma AnswerWithin(hits: seq<Hit>, kernel: Kernel, scores: seq<int>, mask: seq<bool>, n: nat, k: nat)
    requires n <= |scores| && n <= |mask| && Answers(hits, kernel, scores, mask, 0, n, k)
    ensures Within(hits, n)
  {
    HitsWithin(scores, mask, 0, n);
    hide HitsIn, TopK;
    WithinPart(hits, HitsIn(scores, mask, 0, n), n);
  }

  method SearchCompact(codes: seq<bv8>, scales: seq<nat>, stride: nat, score: Scorer, kernel: Kernel, k: nat,
      allow: Option<seq<bool>>, t: nat) returns (hits: seq<Hit>)
    requires Aligned(codes, stride, |scales|) && |scales| > 0 && Ranks(kernel)
    requires allow.Some? ==> |allow.value| == |scales|
    ensures Answers(hits, kernel, Scores(Records(codes, stride, |scales|), scales, score), MaskOr(allow, |scales|), 0,
              |scales|, k)
  {
    if t <= 1 {
      hits := SearchCompactChunk(codes, scales, stride, 0, |scales|, score, kernel, k, allow);
    } else {
      hits := SearchCompactParallel(codes, scales, stride, score, kernel, k, allow, t);
    }
  }
}
