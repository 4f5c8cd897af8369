/** Out-of-core search and the whole-index path agree: the gathered rows are the rows the whole-index
    slot mask lets through, so both rank the same candidates. */
module OocTheorems {
  import opened Collections
  import opened Options
  import opened Bitmap
  import opened IdMap
  import opened Topk
  import opened Candidates
  import opened OocGather
  import opened OocSearch

  predicate AllowedSlot(ix: Ooc, slot: nat, allow: Option<set<Id>>) {
    allow.Some? && slot < |ix.slotToId| ==> ix.slotToId[slot] in allow.value
  }

  /** The whole-index slot mask: probed or in the append tail, not tombstoned, and allowed. */
  ghost predicate IsWholeMask(ix: Ooc, probed: seq<nat>, dead: seq<bv8>, allow: Option<set<Id>>, mask: seq<bool>) {
    && |mask| == ix.nVectors
    && forall s :: 0 <= s < ix.nVectors ==>
         (mask[s] <==> Probed(ix, probed, s) && !IsSet(dead, s) && AllowedSlot(ix, s, allow))
  }

  // ---------------------------------------------------------------- building the mask

  /** Slots already turned on by the first `i` probes. */
  ghost predicate On(ix: Ooc, probed: seq<nat>, slot: nat) {
    exists c :: c in probed && c < |ix.cells| && CellRange(ix, c).start <= slot < CellRange(ix, c).end
  }

  lemma OnStep(ix: Ooc, probed: seq<nat>, i: nat, slot: nat)
    requires i < |probed|
    ensures On(ix, probed[..i + 1], slot)
       <==> On(ix, probed[..i], slot)
            || (probed[i] < |ix.cells| && CellRange(ix, probed[i]).start <= slot < CellRange(ix, probed[i]).end)
  {
    assert probed[..i + 1] == probed[..i] + [probed[i]];
    assert forall c :: c in probed[..i + 1] <==> c in probed[..i] || c == probed[i];
  }

  /** `probe_mask`: the probed cells, whatever the probe list repeats or invents, and the append tail. */
  method ProbeMask(ix: Ooc, probed: seq<nat>) returns (mask: array<bool>)
    ensures mask.Length == ix.nVectors && fresh(mask)
    ensures forall s :: 0 <= s < ix.nVectors ==> (mask[s] <==> Probed(ix, probed, s))
  {
    var n := ix.nVectors;
    mask := new bool[n](_ => false);
    for i := 0 to |probed|
      invariant forall s :: 0 <= s < n ==> (mask[s] <==> On(ix, probed[..i], s))
    {
      var c := probed[i];
      ghost var before := mask[..];
      if c < |ix.cells| {
        var r := CellRange(ix, c);
        for s := r.start to if r.start < r.end then r.end else r.start
          invariant forall t :: 0 <= t < n ==> mask[t] == (before[t] || r.start <= t < s)
        {
          mask[s] := true;
        }
      }
      forall s | 0 <= s < n ensures mask[s] <==> On(ix, probed[..i + 1], s) {
        OnStep(ix, probed, i, s);
        assert before[s] <==> On(ix, probed[..i], s);
      }
    }
    assert probed[..|probed|] == probed;
    var tail := if TotalRows(ix.cells) < n then TotalRows(ix.cells) else n;
    for s := tail to n
      invariant forall t :: 0 <= t < n ==> (mask[t] <==> On(ix, probed, t) || tail <= t < s)
    {
      mask[s] := true;
    }
  }

  /** `apply_tombstones`, in place. */
  method ApplyTombstones(mask: array<bool>, dead: seq<bv8>)
    modifies mask
    ensures forall s :: 0 <= s < mask.Length ==> (mask[s] <==> old(mask[s]) && !IsSet(dead, s))
  {
    if dead == [] {
      return;
    }
    for s := 0 to mask.Length
      invariant forall t :: 0 <= t < mask.Length ==> (mask[t] <==> old(mask[t]) && !(t < s && IsSet(dead, t)))
    {
      if mask[s] && IsSet(dead, s) {
        mask[s] := false;
      }
    }
  }

  /** `apply_allowlist`, in place; the id table bounds what it can clear. */
  method ApplyAllowlist(mask: array<bool>, ix: Ooc, allow: Option<set<Id>>)
    modifies mask
    ensures forall s :: 0 <= s < mask.Length ==> (mask[s] <==> old(mask[s]) && AllowedSlot(ix, s, allow))
  {
    if allow.None? {
      return;
    }
    var m := if |ix.slotToId| < mask.Length then |ix.slotToId| else mask.Length;
    for s := 0 to m
      invariant forall t :: 0 <= t < mask.Length ==>
                (mask[t] <==> old(mask[t]) && (t < s ==> AllowedSlot(ix, t, allow)))
    {
      mask[s] := mask[s] && ix.slotToId[s] in allow.value;
    }
  }

  method WholeMask(ix: Ooc, probed: seq<nat>, dead: seq<bv8>, allow: Option<set<Id>>) returns (mask: seq<bool>)
    ensures IsWholeMask(ix, probed, dead, allow, mask)
  {
    var m := ProbeMask(ix, probed);
    ApplyTombstones(m, dead);
    ApplyAllowlist(m, ix, allow);
    mask := m[..];
  }

  // ---------------------------------------------------------------- agreement

  function AllScores(ix: Ooc, score: Scorer): (r: seq<int>)
    requires Loaded(ix)
    ensures |r| == ix.nVectors && forall s :: 0 <= s < ix.nVectors ==> r[s] == score(CodeAt(ix, s), ix.scales[s])
  {
    seq(ix.nVectors, s requires 0 <= s < ix.nVectors => score(CodeAt(ix, s), ix.scales[s]))
  }

  lemma GatheredFromWhole(ix: Ooc, probed: seq<nat>, dead: seq<bv8>, allow: Option<set<Id>>, score: Scorer,
      mask: seq<bool>)
    requires Loaded(ix) && Partitioned(ix.cells) && InIndex(ix, GatherSlots(ix, probed, dead))
    requires IsWholeMask(ix, probed, dead, allow, mask)
    requires allow.Some? ==> IdsKnown(ix, GatherSlots(ix, probed, dead))
    ensures var slots := GatherSlots(ix, probed, dead);
            Gathered(ScoresAt(ix, slots, score), AllowedAt(ix, slots, allow), slots, AllScores(ix, score), mask)
  {
    var slots := GatherSlots(ix, probed, dead);
    GatheredOnce(ix, probed, dead);
    forall j | 0 <= j < |slots|
      ensures Probed(ix, probed, slots[j]) && !IsSet(dead, slots[j])
    {
      GatheredExactly(ix, probed, dead, slots[j]);
    }
    forall s: nat | s < ix.nVectors && mask[s] ensures s in slots {
      GatheredExactly(ix, probed, dead, s);
    }
    hide GatherSlots, Probed, IsSet, Loaded, Partitioned, CodeAt;
    assert forall j :: 0 <= j < |slots| ==> AllowedAt(ix, slots, allow)[j] == mask[slots[j]];
  }

  /** Whatever list the out-of-core search ranks, in index slots it is a best-k list of the masked whole
      index; and it is the very list of the whole-index scan when slots were gathered in order. */
  lemma OocMatchesMaskedScan(ix: Ooc, probed: seq<nat>, dead: seq<bv8>, allow: Option<set<Id>>, score: Scorer,
      kernel: Kernel, mask: seq<bool>, local: seq<Hit>, k: nat)
    requires Loaded(ix) && Partitioned(ix.cells) && InIndex(ix, GatherSlots(ix, probed, dead))
    requires IsWholeMask(ix, probed, dead, allow, mask)
    requires allow.Some? ==> IdsKnown(ix, GatherSlots(ix, probed, dead))
    requires var slots := GatherSlots(ix, probed, dead);
             Answers(local, kernel, ScoresAt(ix, slots, score), AllowedAt(ix, slots, allow), 0, |slots|, k)
    ensures var slots := GatherSlots(ix, probed, dead); var whole := HitsIn(AllScores(ix, score), mask, 0, ix.nVectors);
            && Within(local, |slots|)
            && IsTopK(Lift(local, slots), whole, k)
            && (RanksBySlot(kernel) && AscendingWhere(slots, AllowedAt(ix, slots, allow)) ==>
                 Lift(local, slots) == TopK(whole, k))
  {
    var slots := GatherSlots(ix, probed, dead);
    var scores, allowed := ScoresAt(ix, slots, score), AllowedAt(ix, slots, allow);
    GatheredFromWhole(ix, probed, dead, allow, score, mask);
    hide IsTopK, TopK, HitsIn, RanksBySlot, Gathered, Within, AscendingWhere;
    hide Loaded, Partitioned, IsWholeMask, GatherSlots, IdsKnown;
    GatheredBest(scores, allowed, slots, AllScores(ix, score), mask, local, k);
    if AscendingWhere(slots, allowed) { GatheredInOrder(scores, allowed, slots, AllScores(ix, score), mask, k); }
  }

  /** Probing every cell looks at every live slot, so the search is the flat scan. */
  lemma {:induction false} EveryCellProbed(ix: Ooc, probed: seq<nat>, slot: nat)
    requires Partitioned(ix.cells) && slot < ix.nVectors
    requires forall c: nat :: c < |ix.cells| ==> c in probed
    ensures Probed(ix, probed, slot)
  {
    if slot < TotalRows(ix.cells) {
      var c := CellHolding(ix.cells, slot);
      assert CellRange(ix, c).start <= slot < CellRange(ix, c).end;
    }
  }

  lemma {:induction false} CellHolding(cells: seq<Cell>, slot: nat) returns (c: nat)
    requires Partitioned(cells) && slot < TotalRows(cells)
    ensures c < |cells| && cells[c].offset <= slot < cells[c].offset + cells[c].count
  {
    var n := |cells| - 1;
    if slot < TotalRows(cells[..n]) {
      assert forall d :: 0 <= d < n ==> cells[..n][..d] == cells[..d];
      c := CellHolding(cells[..n], slot);
    } else {
      c := n;
    }
  }

  /** Probes in cell order keep the gathered slots in order. */
  lemma ProbesInOrder(ix: Ooc, probed: seq<nat>, dead: seq<bv8>)
    requires Partitioned(ix.cells) && Ascending(probed)
    ensures Ascending(GatherSlots(ix, probed, dead))
  {
    var cells := Probes(probed, |ix.cells|);
    ProbesAscending(probed, |ix.cells|);
    LiveInCellsAscending(ix, dead, cells);
    ProbesDistinct(probed, |ix.cells|);
    LiveInCellsDistinct(ix, dead, cells);
    LiveInAscending(dead, CellRows(ix), ix.nVectors);
    hide LiveIn, LiveInCells, Partitioned;
    var a, b := LiveInCells(ix, dead, cells), LiveIn(dead, CellRows(ix), ix.nVectors);
    assert forall i :: 0 <= i < |a| ==> a[i] in a;
  }

  lemma {:induction false} ProbesAscending(probed: seq<nat>, lists: nat)
    requires Ascending(probed)
    ensures Ascending(Probes(probed, lists))
  {
    if probed != [] {
      var init := probed[..|probed| - 1];
      var r := Probes(init, lists);
      ProbesAscending(init, lists);
      forall i | 0 <= i < |r| ensures r[i] < probed[|probed| - 1] {
        assert r[i] in init;
      }
    }
  }

  // ---------------------------------------------------------------- exactly when the lists are the same

  ghost function WholeMaskOf(ix: Ooc, probed: seq<nat>, dead: seq<bv8>, allow: Option<set<Id>>): (mask: seq<bool>)
    ensures IsWholeMask(ix, probed, dead, allow, mask)
  {
    seq(ix.nVectors, s requires 0 <= s < ix.nVectors =>
      Probed(ix, probed, s) && !IsSet(dead, s) && AllowedSlot(ix, s, allow))
  }

  /** Under the slot tie-break, the out-of-core ranking, in index slots, is the ranking of the masked scan. */
  ghost predicate Agree(ix: Ooc, probed: seq<nat>, dead: seq<bv8>, allow: Option<set<Id>>, score: Scorer, k: nat)
    requires Loaded(ix) && InIndex(ix, GatherSlots(ix, probed, dead))
    requires allow.Some? ==> IdsKnown(ix, GatherSlots(ix, probed, dead))
  {
    var slots := GatherSlots(ix, probed, dead);
    var local := TopK(HitsIn(ScoresAt(ix, slots, score), AllowedAt(ix, slots, allow), 0, |slots|), k);
    && Within(local, |slots|)
    && Lift(local, slots) == TopK(HitsIn(AllScores(ix, score), WholeMaskOf(ix, probed, dead, allow), 0, ix.nVectors), k)
  }

  lemma AgreeInOrder(ix: Ooc, probed: seq<nat>, dead: seq<bv8>, allow: Option<set<Id>>, score: Scorer, k: nat)
    requires Loaded(ix) && Partitioned(ix.cells) && InIndex(ix, GatherSlots(ix, probed, dead))
    requires allow.Some? ==> IdsKnown(ix, GatherSlots(ix, probed, dead))
    requires var slots := GatherSlots(ix, probed, dead); AscendingWhere(slots, AllowedAt(ix, slots, allow))
    ensures Agree(ix, probed, dead, allow, score, k)
  {
    var slots, mask := GatherSlots(ix, probed, dead), WholeMaskOf(ix, probed, dead, allow);
    GatheredFromWhole(ix, probed, dead, allow, score, mask);
    hide TopK, HitsIn, Gathered, Within, Loaded, Partitioned, GatherSlots, WholeMaskOf, AscendingWhere;
    GatheredInOrder(ScoresAt(ix, slots, score), AllowedAt(ix, slots, allow), slots, AllScores(ix, score), mask, k);
  }

  lemma AgreeOnTies(ix: Ooc, probed: seq<nat>, dead: seq<bv8>, allow: Option<set<Id>>, score: Scorer)
    requires Loaded(ix) && Partitioned(ix.cells) && InIndex(ix, GatherSlots(ix, probed, dead))
    requires allow.Some? ==> IdsKnown(ix, GatherSlots(ix, probed, dead))
    requires (forall code, scale :: score(code, scale) == 0)
             && Agree(ix, probed, dead, allow, score, |GatherSlots(ix, probed, dead)|)
    ensures var slots := GatherSlots(ix, probed, dead); AscendingWhere(slots, AllowedAt(ix, slots, allow))
  {
    var slots, mask := GatherSlots(ix, probed, dead), WholeMaskOf(ix, probed, dead, allow);
    GatheredFromWhole(ix, probed, dead, allow, score, mask);
    assert AllTied(ScoresAt(ix, slots, score));
    hide TopK, HitsIn, Gathered, Within, Loaded, Partitioned, GatherSlots, WholeMaskOf, AscendingWhere, AllTied;
    AgreeingTiesInOrder(ScoresAt(ix, slots, score), AllowedAt(ix, slots, allow), slots, AllScores(ix, score), mask);
  }

  /** The two paths rank alike for every query and every k exactly when the candidate slots are gathered in
      ascending order; otherwise a query under which all rows tie tells them apart. */
  lemma AgreeIff(ix: Ooc, probed: seq<nat>, dead: seq<bv8>, allow: Option<set<Id>>)
    requires Loaded(ix) && Partitioned(ix.cells) && InIndex(ix, GatherSlots(ix, probed, dead))
    requires allow.Some? ==> IdsKnown(ix, GatherSlots(ix, probed, dead))
    ensures (forall score: Scorer, k: nat :: Agree(ix, probed, dead, allow, score, k))
       <==> var slots := GatherSlots(ix, probed, dead); AscendingWhere(slots, AllowedAt(ix, slots, allow))
  {
    var slots := GatherSlots(ix, probed, dead);
    hide Agree, Loaded, Partitioned, GatherSlots, AscendingWhere, InIndex, IdsKnown;
    if AscendingWhere(slots, AllowedAt(ix, slots, allow)) {
      forall score: Scorer, k: nat ensures Agree(ix, probed, dead, allow, score, k) {
        AgreeInOrder(ix, probed, dead, allow, score, k);
      }
    }
    var tie: Scorer := (code, scale) => 0;
    if Agree(ix, probed, dead, allow, tie, |slots|) { AgreeOnTies(ix, probed, dead, allow, tie); }
  }

  // ---------------------------------------------------------------- kernels with any tie order

  /** For one query, whatever each path's kernel does with equal scores: the lists are the same exactly when
      no tie reaches the first `k` places of the whole-index ranking. */
  lemma AgreeAnyTiesIff(ix: Ooc, probed: seq<nat>, dead: seq<bv8>, allow: Option<set<Id>>, score: Scorer, k: nat)
    requires Loaded(ix) && Partitioned(ix.cells) && InIndex(ix, GatherSlots(ix, probed, dead))
    requires allow.Some? ==> IdsKnown(ix, GatherSlots(ix, probed, dead))
    ensures var slots := GatherSlots(ix, probed, dead);
            var whole := HitsIn(AllScores(ix, score), WholeMaskOf(ix, probed, dead, allow), 0, ix.nVectors);
            SameBest(HitsIn(ScoresAt(ix, slots, score), AllowedAt(ix, slots, allow), 0, |slots|), slots, whole, k) <==>
            UntiedTop(whole, k)
  {
    var slots, mask := GatherSlots(ix, probed, dead), WholeMaskOf(ix, probed, dead, allow);
    GatheredFromWhole(ix, probed, dead, allow, score, mask);
    hide HitsIn, SameBest, UntiedTop, Gathered, Loaded, Partitioned, GatherSlots, WholeMaskOf;
    SameBestIff(ScoresAt(ix, slots, score), AllowedAt(ix, slots, allow), slots, AllScores(ix, score), mask, k);
  }

  // ---------------------------------------------------------------- a condition on the probes

  /** A row of the cell that the search may return. */
  predicate Candidate(ix: Ooc, dead: seq<bv8>, allow: Option<set<Id>>, c: nat, x: nat)
    requires c < |ix.cells|
  {
    CellRange(ix, c).start <= x < CellRange(ix, c).end && !IsSet(dead, x) && AllowedSlot(ix, x, allow)
  }

  ghost predicate HasCandidate(ix: Ooc, dead: seq<bv8>, allow: Option<set<Id>>, c: nat)
    requires c < |ix.cells|
  {
    exists x: nat :: Candidate(ix, dead, allow, c, x)
  }

  /** Of the probed cells, those that hold a candidate are visited in cell order. */
  ghost predicate CellsInOrder(ix: Ooc, dead: seq<bv8>, allow: Option<set<Id>>, cells: seq<nat>)
    requires forall i :: 0 <= i < |cells| ==> cells[i] < |ix.cells|
  {
    forall i, j :: 0 <= i < j < |cells| && HasCandidate(ix, dead, allow, cells[i])
      && HasCandidate(ix, dead, allow, cells[j])
      ==> cells[i] < cells[j]
  }

  predicate AllowedAscend(ix: Ooc, allow: Option<set<Id>>, slots: seq<int>) {
    forall i, j :: 0 <= i < j < |slots| && IsAllowed(ix, slots[i], allow) && IsAllowed(ix, slots[j], allow) ==>
      slots[i] < slots[j]
  }

  predicate IsAllowed(ix: Ooc, slot: int, allow: Option<set<Id>>) {
    slot >= 0 && AllowedSlot(ix, slot, allow)
  }

  predicate AllowedBefore(ix: Ooc, allow: Option<set<Id>>, a: seq<int>, b: seq<int>) {
    forall x, y :: x in a && y in b && IsAllowed(ix, x, allow) && IsAllowed(ix, y, allow) ==> x < y
  }

  lemma AllowedAscendJoin(ix: Ooc, allow: Option<set<Id>>, a: seq<int>, b: seq<int>)
    ensures AllowedAscend(ix, allow, a + b) <==>
              && AllowedAscend(ix, allow, a) && AllowedAscend(ix, allow, b)
              && AllowedBefore(ix, allow, a, b)
  {
    hide IsAllowed;
    var c := a + b;
    assert forall i :: 0 <= i < |a| ==> c[i] == a[i];
    assert forall i :: 0 <= i < |b| ==> c[|a| + i] == b[i];
    if AllowedAscend(ix, allow, c) {
      forall x, y | x in a && y in b && IsAllowed(ix, x, allow) && IsAllowed(ix, y, allow) ensures x < y {
        var i :| 0 <= i < |a| && a[i] == x;
        var j :| 0 <= j < |b| && b[j] == y;
        assert c[i] == x && c[|a| + j] == y;
      }
    }
  }

  /** Slots of an earlier and of a later visited cell come in order exactly when the cells do. */
  lemma CellPair(ix: Ooc, dead: seq<bv8>, allow: Option<set<Id>>, c: nat, d: nat, x: nat, y: nat)
    requires Partitioned(ix.cells) && c < |ix.cells| && d < |ix.cells| && c != d
    requires CellRange(ix, c).start <= x < CellRange(ix, c).end && CellRange(ix, d).start <= y < CellRange(ix, d).end
    ensures x < y <==> c < d
  {
    if c < d { CellsApart(ix, c, d); } else { CellsApart(ix, d, c); }
  }

  /** The last of the cells comes after every earlier one, as far as they hold candidates. */
  ghost predicate LastInOrder(ix: Ooc, dead: seq<bv8>, allow: Option<set<Id>>, cells: seq<nat>)
    requires cells != [] && forall i :: 0 <= i < |cells| ==> cells[i] < |ix.cells|
  {
    var n := |cells| - 1;
    forall i :: 0 <= i < n && HasCandidate(ix, dead, allow, cells[i]) && HasCandidate(ix, dead, allow, cells[n]) ==>
      cells[i] < cells[n]
  }

  /** The slots of the earlier cells that may be returned come before those of the last. */
  predicate SlotsInOrder(ix: Ooc, dead: seq<bv8>, allow: Option<set<Id>>, cells: seq<nat>)
    requires cells != [] && forall i :: 0 <= i < |cells| ==> cells[i] < |ix.cells|
  {
    var n := |cells| - 1;
    var r := CellRange(ix, cells[n]);
    AllowedBefore(ix, allow, LiveInCells(ix, dead, cells[..n]), LiveIn(dead, r.start, r.end))
  }

  lemma SlotsFollowCells(ix: Ooc, dead: seq<bv8>, allow: Option<set<Id>>, cells: seq<nat>, x: int, y: int)
    requires Partitioned(ix.cells) && cells != [] && Distinct(cells)
             && forall i :: 0 <= i < |cells| ==> cells[i] < |ix.cells|
    requires LastInOrder(ix, dead, allow, cells) && IsAllowed(ix, x, allow) && IsAllowed(ix, y, allow)
    requires x in LiveInCells(ix, dead, cells[..|cells| - 1])
    requires var r := CellRange(ix, cells[|cells| - 1]); y in LiveIn(dead, r.start, r.end)
    ensures x < y
  {
    var n := |cells| - 1;
    var r := CellRange(ix, cells[n]);
    hide Partitioned, LiveIn, LiveInCells, CellRange, IsSet, AllowedSlot;
    LiveInCellsMember(ix, dead, cells[..n], x);
    LiveInMember(dead, r.start, r.end, y);
    var i :| 0 <= i < n && CellRange(ix, cells[i]).start <= x < CellRange(ix, cells[i]).end && !IsSet(dead, x);
    assert Candidate(ix, dead, allow, cells[i], x) && Candidate(ix, dead, allow, cells[n], y);
    CellPair(ix, dead, allow, cells[i], cells[n], x, y);
  }

  lemma CandidateListed(ix: Ooc, dead: seq<bv8>, allow: Option<set<Id>>, cells: seq<nat>, i: nat, x: nat)
    requires i < |cells| && forall j :: 0 <= j < |cells| ==> cells[j] < |ix.cells|
    requires Candidate(ix, dead, allow, cells[i], x)
    ensures x in LiveInCells(ix, dead, cells) && IsAllowed(ix, x, allow)
  {
    hide LiveInCells, CellRange, IsSet, AllowedSlot;
    LiveInCellsMember(ix, dead, cells, x);
  }

  lemma CandidatesInOrder(ix: Ooc, dead: seq<bv8>, allow: Option<set<Id>>, cells: seq<nat>, i: nat, x: nat, y: nat)
    requires cells != [] && forall i :: 0 <= i < |cells| ==> cells[i] < |ix.cells|
    requires SlotsInOrder(ix, dead, allow, cells) && i < |cells| - 1
    requires Candidate(ix, dead, allow, cells[i], x) && Candidate(ix, dead, allow, cells[|cells| - 1], y)
    ensures x < y
  {
    var n := |cells| - 1;
    var r := CellRange(ix, cells[n]);
    hide LiveIn, LiveInCells, CellRange, AllowedSlot, IsSet;
    CandidateListed(ix, dead, allow, cells[..n], i, x);
    LiveInMember(dead, r.start, r.end, y);
    hide Candidate;
    assert IsAllowed(ix, y, allow);
  }

  lemma CellsFollowSlots(ix: Ooc, dead: seq<bv8>, allow: Option<set<Id>>, cells: seq<nat>, i: nat)
    requires Partitioned(ix.cells) && cells != [] && Distinct(cells)
             && forall i :: 0 <= i < |cells| ==> cells[i] < |ix.cells|
    requires SlotsInOrder(ix, dead, allow, cells) && i < |cells| - 1
    requires HasCandidate(ix, dead, allow, cells[i]) && HasCandidate(ix, dead, allow, cells[|cells| - 1])
    ensures cells[i] < cells[|cells| - 1]
  {
    hide Partitioned, CellRange, IsSet, AllowedSlot, SlotsInOrder;
    var n := |cells| - 1;
    var x: nat :| Candidate(ix, dead, allow, cells[i], x);
    var y: nat :| Candidate(ix, dead, allow, cells[n], y);
    CandidatesInOrder(ix, dead, allow, cells, i, x, y);
    CellPair(ix, dead, allow, cells[i], cells[n], x, y);
  }

  lemma CrossInOrder(ix: Ooc, dead: seq<bv8>, allow: Option<set<Id>>, cells: seq<nat>)
    requires Partitioned(ix.cells) && cells != [] && Distinct(cells)
             && forall i :: 0 <= i < |cells| ==> cells[i] < |ix.cells|
    ensures SlotsInOrder(ix, dead, allow, cells) <==> LastInOrder(ix, dead, allow, cells)
  {
    var n := |cells| - 1;
    var r := CellRange(ix, cells[n]);
    var a, b := LiveInCells(ix, dead, cells[..n]), LiveIn(dead, r.start, r.end);
    hide Partitioned, LiveIn, LiveInCells, CellRange, IsAllowed, HasCandidate;
    if LastInOrder(ix, dead, allow, cells) {
      forall x, y | x in a && y in b && IsAllowed(ix, x, allow) && IsAllowed(ix, y, allow) ensures x < y {
        SlotsFollowCells(ix, dead, allow, cells, x, y);
      }
    }
    if SlotsInOrder(ix, dead, allow, cells) {
      forall i | 0 <= i < n && HasCandidate(ix, dead, allow, cells[i]) && HasCandidate(ix, dead, allow, cells[n])
        ensures cells[i] < cells[n]
      {
        CellsFollowSlots(ix, dead, allow, cells, i);
      }
    }
  }

  lemma RangeAscends(ix: Ooc, dead: seq<bv8>, allow: Option<set<Id>>, start: nat, end: nat)
    ensures AllowedAscend(ix, allow, LiveIn(dead, start, end))
  {
    LiveInAscending(dead, start, end);
  }

  lemma CellsSplit(ix: Ooc, dead: seq<bv8>, allow: Option<set<Id>>, cells: seq<nat>)
    requires cells != [] && forall i :: 0 <= i < |cells| ==> cells[i] < |ix.cells|
    ensures CellsInOrder(ix, dead, allow, cells) <==>
            CellsInOrder(ix, dead, allow, cells[..|cells| - 1]) && LastInOrder(ix, dead, allow, cells)
  {
    hide HasCandidate;
    var n := |cells| - 1;
    assert forall i :: 0 <= i < n ==> cells[..n][i] == cells[i];
  }

  lemma LiveInCellsSplit(ix: Ooc, dead: seq<bv8>, cells: seq<nat>)
    requires cells != [] && forall i :: 0 <= i < |cells| ==> cells[i] < |ix.cells|
    ensures var n := |cells| - 1;
            var r := CellRange(ix, cells[n]);
            LiveInCells(ix, dead, cells) == LiveInCells(ix, dead, cells[..n]) + LiveIn(dead, r.start, r.end)
  {
  }

  lemma {:induction false} CellsOrderIff(ix: Ooc, dead: seq<bv8>, allow: Option<set<Id>>, cells: seq<nat>)
    requires Partitioned(ix.cells) && Distinct(cells) && forall i :: 0 <= i < |cells| ==> cells[i] < |ix.cells|
    ensures AllowedAscend(ix, allow, LiveInCells(ix, dead, cells)) <==> CellsInOrder(ix, dead, allow, cells)
  {
    if cells != [] {
      var n := |cells| - 1;
      assert Distinct(cells[..n]);
      hide LiveIn, LiveInCells, CellRange, Partitioned, CellsInOrder, LastInOrder, AllowedAscend, AllowedBefore;
      var r := CellRange(ix, cells[n]);
      CellsOrderIff(ix, dead, allow, cells[..n]);
      LiveInCellsSplit(ix, dead, cells);
      RangeAscends(ix, dead, allow, r.start, r.end);
      CrossInOrder(ix, dead, allow, cells);
      CellsSplit(ix, dead, allow, cells);
      AllowedAscendJoin(ix, allow, LiveInCells(ix, dead, cells[..n]), LiveIn(dead, r.start, r.end));
    }
  }

  /** The candidates are gathered in order exactly when the probed cells that hold one are visited in cell
      order. The append tail comes after every cell and never matters. */
  lemma GatherOrderIff(ix: Ooc, probed: seq<nat>, dead: seq<bv8>, allow: Option<set<Id>>)
    requires Partitioned(ix.cells) && InIndex(ix, GatherSlots(ix, probed, dead))
    requires allow.Some? ==> IdsKnown(ix, GatherSlots(ix, probed, dead))
    ensures var slots := GatherSlots(ix, probed, dead);
            AscendingWhere(slots, AllowedAt(ix, slots, allow)) <==>
            CellsInOrder(ix, dead, allow, Probes(probed, |ix.cells|))
  {
    var cells, slots := Probes(probed, |ix.cells|), GatherSlots(ix, probed, dead);
    var a, b := LiveInCells(ix, dead, cells), LiveIn(dead, CellRows(ix), ix.nVectors);
    ProbesDistinct(probed, |ix.cells|);
    CellsOrderIff(ix, dead, allow, cells);
    LiveInCellsDistinct(ix, dead, cells);
    RangeAscends(ix, dead, allow, CellRows(ix), ix.nVectors);
    LiveInAscending(dead, CellRows(ix), ix.nVectors);
    assert forall x, y :: x in a && y in b ==> x < y;
    AllowedAscendJoin(ix, allow, a, b);
    AllowedPositions(ix, allow, slots);
  }

  lemma AllowedPositions(ix: Ooc, allow: Option<set<Id>>, slots: seq<int>)
    requires InIndex(ix, slots) && (allow.Some? ==> IdsKnown(ix, slots))
    ensures AscendingWhere(slots, AllowedAt(ix, slots, allow)) <==> AllowedAscend(ix, allow, slots)
  {
    assert forall i :: 0 <= i < |slots| ==> (AllowedAt(ix, slots, allow)[i] <==> AllowedSlot(ix, slots[i], allow));
    hide AllowedSlot;
  }

  /** So the out-of-core path and the masked whole-index path return identical results, for every query and
      every k, exactly when the probed cells holding a candidate come in cell order. */
  lemma PathsAgreeIff(ix: Ooc, probed: seq<nat>, dead: seq<bv8>, allow: Option<set<Id>>)
    requires Loaded(ix) && Partitioned(ix.cells)
    requires allow.Some? ==> IdsKnown(ix, GatherSlots(ix, probed, dead))
    ensures InIndex(ix, GatherSlots(ix, probed, dead))
    ensures (forall score: Scorer, k: nat :: Agree(ix, probed, dead, allow, score, k))
       <==> CellsInOrder(ix, dead, allow, Probes(probed, |ix.cells|))
  {
    GatherInIndex(ix, probed, dead);
    hide Agree, Loaded, Partitioned, GatherSlots, AscendingWhere, InIndex, IdsKnown, CellsInOrder;
    AgreeIff(ix, probed, dead, allow);
    GatherOrderIff(ix, probed, dead, allow);
  }
}
