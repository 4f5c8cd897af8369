/** What an out-of-core search of a cell-partitioned index reads: the probed cells and the append tail,
    cut into live runs around tombstones and copied page by page into one gapless buffer. */
module OocGather {
  import opened Collections
  import opened Options
  import opened Slots
  import opened Bitmap
  import opened IdMap
  import opened Candidates

  datatype Cell = Cell(offset: nat, count: nat)

  /** `pages[p]` holds the codes of slots `p * perPage ..< (p + 1) * perPage`. */
  datatype Ooc = Ooc(cells: seq<Cell>, nVectors: nat, stride: nat, perPage: nat, pages: seq<seq<bv8>>,
    scales: seq<nat>, slotToId: seq<Id>)

  /** Slots `start ..< end`, empty when `end <= start`. */
  datatype Range = Range(start: nat, end: nat)

  function TotalRows(cells: seq<Cell>): nat {
    if cells == [] then 0 else TotalRows(cells[..|cells| - 1]) + cells[|cells| - 1].count
  }

  /** `validate_partition`: the cells lie end to end from slot 0. */
  predicate Partitioned(cells: seq<Cell>) {
    forall c :: 0 <= c < |cells| ==> cells[c].offset == TotalRows(cells[..c])
  }

  function CellRows(ix: Ooc): nat {
    if TotalRows(ix.cells) < ix.nVectors then TotalRows(ix.cells) else ix.nVectors
  }

  function CellRange(ix: Ooc, c: nat): Range
    requires c < |ix.cells|
  {
    var e := ix.cells[c];
    Range(e.offset, if e.offset + e.count < ix.nVectors then e.offset + e.count else ix.nVectors)
  }

  /** The probed cells that exist, each at its first mention. */
  function Probes(probed: seq<nat>, lists: nat): (r: seq<nat>)
    ensures forall c :: c in r <==> c in probed && c < lists
    ensures forall i :: 0 <= i < |r| ==> r[i] < lists
  {
    if probed == [] then [] else
      var r := Probes(probed[..|probed| - 1], lists);
      var c := probed[|probed| - 1];
      assert forall d :: d in probed <==> d in probed[..|probed| - 1] || d == c;
      if c >= lists || c in r then r else r + [c]
  }

  /** The live slots of a range, ascending. */
  function LiveIn(dead: seq<bv8>, start: nat, end: nat): seq<int>
    decreases end
  {
    if end <= start then [] else
      LiveIn(dead, start, end - 1) + if IsSet(dead, end - 1) then [] else [end - 1]
  }

  function LiveInCells(ix: Ooc, dead: seq<bv8>, cells: seq<nat>): seq<int>
    requires forall i :: 0 <= i < |cells| ==> cells[i] < |ix.cells|
  {
    if cells == [] then [] else
      var r := CellRange(ix, cells[|cells| - 1]);
      LiveInCells(ix, dead, cells[..|cells| - 1]) + LiveIn(dead, r.start, r.end)
  }

  /** What the search looks at, in gather order. */
  function GatherSlots(ix: Ooc, probed: seq<nat>, dead: seq<bv8>): seq<int> {
    LiveInCells(ix, dead, Probes(probed, |ix.cells|)) + LiveIn(dead, CellRows(ix), ix.nVectors)
  }

  /** The same from the whole-index side: does the probe mask let this slot through? */
  predicate Probed(ix: Ooc, probed: seq<nat>, slot: nat) {
    || (exists c :: c in probed && c < |ix.cells| && CellRange(ix, c).start <= slot < CellRange(ix, c).end)
    || slot >= TotalRows(ix.cells)
  }

  // ---------------------------------------------------------------- ranges and runs

  /** The slots of a run list, laid end to end. */
  function RunSlots(runs: seq<Range>): seq<int> {
    if runs == [] then [] else
      var r := runs[|runs| - 1];
      RunSlots(runs[..|runs| - 1]) + Span(r.start, if r.start < r.end then r.end - r.start else 0)
  }

  lemma RunSlotsPush(runs: seq<Range>, r: Range)
    ensures RunSlots(runs + [r]) == RunSlots(runs) + Span(r.start, if r.start < r.end then r.end - r.start else 0)
  {
    assert (runs + [r])[..|runs|] == runs;
  }

  lemma {:induction false} AllLive(start: nat, end: nat)
    requires start <= end
    ensures LiveIn([], start, end) == Span(start, end - start)
    decreases end
  {
    if start < end { AllLive(start, end - 1); }
  }

  function Tail(open: Option<nat>, s: nat): (r: seq<int>)
    ensures open.None? ==> r == []
  {
    if open.Some? && open.value <= s then Span(open.value, s - open.value) else []
  }

  lemma CloseRun(runs: seq<Range>, open: nat, s: nat)
    requires open < s
    ensures RunSlots(runs + [Range(open, s)]) == RunSlots(runs) + Tail(Some(open), s)
  {
    RunSlotsPush(runs, Range(open, s));
  }

  lemma GrowRun(open: Option<nat>, s: nat)
    requires open.Some? ==> open.value <= s
    ensures Tail(Some(if open.Some? then open.value else s), s + 1) == Tail(open, s) + [s]
  {
  }

  /** Appends one range: whole when there is no tombstone bitmap, else split into live runs. */
  method AddRange(dead: seq<bv8>, start: nat, end: nat, runs0: seq<Range>, slots0: seq<int>)
    returns (runs: seq<Range>, slots: seq<int>)
    requires RunSlots(runs0) == slots0
    ensures slots == slots0 + LiveIn(dead, start, end)
    ensures RunSlots(runs) == slots
    ensures forall r :: r in runs ==> r in runs0 || (start <= r.start < r.end <= end)
  {
    if dead == [] {
      runs, slots := AddWhole(start, end, runs0, slots0);
    } else {
      runs, slots := AddLiveRuns(dead, start, end, runs0, slots0);
    }
  }

  method AddWhole(start: nat, end: nat, runs0: seq<Range>, slots0: seq<int>) returns (runs: seq<Range>, slots: seq<int>)
    requires RunSlots(runs0) == slots0
    ensures slots == slots0 + LiveIn([], start, end) && RunSlots(runs) == slots
    ensures forall r :: r in runs ==> r in runs0 || (start <= r.start < r.end <= end)
  {
    runs, slots := runs0, slots0;
    if end > start {
      runs := runs + [Range(start, end)];
      RunSlotsPush(runs0, Range(start, end));
      AllLive(start, end);
      hide RunSlots, LiveIn;
      for s := start to end
        invariant slots == slots0 + Span(start, s - start)
      {
        slots := slots + [s];
      }
    }
  }

  method AddLiveRuns(dead: seq<bv8>, start: nat, end: nat, runs0: seq<Range>, slots0: seq<int>)
    returns (runs: seq<Range>, slots: seq<int>)
    requires RunSlots(runs0) == slots0
    ensures slots == slots0 + LiveIn(dead, start, end) && RunSlots(runs) == slots
    ensures forall r :: r in runs ==> r in runs0 || (start <= r.start < r.end <= end)
  {
    hide IsSet, RunSlots, Tail, Span;
    runs, slots := runs0, slots0;
    var open: Option<nat> := None;
    var s := start;
    while s < end
      invariant start <= s && (s == start || s <= end)
      invariant slots == slots0 + LiveIn(dead, start, s)
      invariant open.Some? ==> start <= open.value < s
      invariant slots == RunSlots(runs) + Tail(open, s)
      invariant forall r :: r in runs ==> r in runs0 || (start <= r.start < r.end <= end)
    {
      if IsSet(dead, s) {
        if open.Some? {
          CloseRun(runs, open.value, s);
          runs := runs + [Range(open.value, s)];
          open := None;
        }
      } else {
        GrowRun(open, s);
        if open.None? {
          open := Some(s);
        }
        slots := slots + [s];
      }
      s := s + 1;
    }
    if open.Some? {
      CloseRun(runs, open.value, s);
      runs := runs + [Range(open.value, end)];
    }
  }

  lemma ProbesStep(probed: seq<nat>, i: nat, lists: nat)
    requires i < |probed|
    ensures var r := Probes(probed[..i], lists);
            Probes(probed[..i + 1], lists) == if probed[i] >= lists || probed[i] in r then r else r + [probed[i]]
  {
    assert probed[..i + 1][..i] == probed[..i];
  }

  lemma LiveInCellsStep(ix: Ooc, dead: seq<bv8>, cells: seq<nat>, c: nat)
    requires c < |ix.cells| && forall i :: 0 <= i < |cells| ==> cells[i] < |ix.cells|
    ensures LiveInCells(ix, dead, cells + [c])
         == LiveInCells(ix, dead, cells) + LiveIn(dead, CellRange(ix, c).start, CellRange(ix, c).end)
  {
    assert (cells + [c])[..|cells|] == cells;
  }

  /** Collects the ranges to copy and the slots they hold: each probed cell once, then the append tail. */
  method PlanGather(ix: Ooc, probed: seq<nat>, dead: seq<bv8>) returns (runs: seq<Range>, slots: seq<int>)
    ensures slots == GatherSlots(ix, probed, dead) && RunSlots(runs) == slots
    ensures forall r :: r in runs ==> r.start < r.end <= ix.nVectors
  {
    runs, slots := PlanCells(ix, probed, dead);
    if CellRows(ix) < ix.nVectors {
      runs, slots := AddRange(dead, CellRows(ix), ix.nVectors, runs, slots);
    }
  }

  lemma RangeEnds(ix: Ooc, c: nat)
    requires c < |ix.cells|
    ensures CellRange(ix, c).end <= ix.nVectors
  {
  }

  method PlanCells(ix: Ooc, probed: seq<nat>, dead: seq<bv8>) returns (runs: seq<Range>, slots: seq<int>)
    ensures slots == LiveInCells(ix, dead, Probes(probed, |ix.cells|)) && RunSlots(runs) == slots
    ensures forall r :: r in runs ==> r.start < r.end <= ix.nVectors
  {
    runs, slots := [], [];
    var lists := |ix.cells|;
    var seen := new bool[lists](_ => false);
    ghost var cells := Probes(probed[..0], lists);
    assert LiveInCells(ix, dead, cells) == [];
    assert RunSlots([]) == [];
    hide Probes, LiveInCells, LiveIn, CellRange, RunSlots;
    for i := 0 to |probed|
      invariant cells == Probes(probed[..i], lists)
      invariant forall c :: 0 <= c < lists ==> (seen[c] <==> c in cells)
      invariant slots == LiveInCells(ix, dead, cells) && RunSlots(runs) == slots
      invariant forall r :: r in runs ==> r.start < r.end <= ix.nVectors
    {
      var c := probed[i];
      ProbesStep(probed, i, lists);
      if c < lists && !seen[c] {
        seen[c] := true;
        var r := CellRange(ix, c);
        RangeEnds(ix, c);
        runs, slots := AddRange(dead, r.start, r.end, runs, slots);
        LiveInCellsStep(ix, dead, cells, c);
        cells := cells + [c];
      }
    }
    assert probed[..|probed|] == probed;
  }

  // ---------------------------------------------------------------- what is gathered, and how often

  lemma {:induction false} LiveInMember(dead: seq<bv8>, start: nat, end: nat, x: int)
    ensures x in LiveIn(dead, start, end) <==> start <= x < end && !IsSet(dead, x)
    decreases end
  {
    hide IsSet;
    if start < end {
      LiveInMember(dead, start, end - 1, x);
      var last := if IsSet(dead, end - 1) then [] else [end - 1];
      assert x in last <==> x == end - 1 && !IsSet(dead, end - 1);
    }
  }

  lemma {:induction false} LiveInAscending(dead: seq<bv8>, start: nat, end: nat)
    ensures Ascending(LiveIn(dead, start, end))
    ensures forall i :: 0 <= i < |LiveIn(dead, start, end)| ==> start <= LiveIn(dead, start, end)[i] < end
    decreases end
  {
    if start < end { LiveInAscending(dead, start, end - 1); }
  }

  lemma {:induction false} LiveInCellsMember(ix: Ooc, dead: seq<bv8>, cells: seq<nat>, x: int)
    requires forall i :: 0 <= i < |cells| ==> cells[i] < |ix.cells|
    ensures x in LiveInCells(ix, dead, cells) <==>
              exists i ::
                && 0 <= i < |cells|
                && CellRange(ix, cells[i]).start <= x < CellRange(ix, cells[i]).end
                && !IsSet(dead, x)
  {
    hide CellRange, IsSet, LiveIn;
    if cells != [] {
      var n := |cells| - 1;
      LiveInCellsMember(ix, dead, cells[..n], x);
      LiveInMember(dead, CellRange(ix, cells[n]).start, CellRange(ix, cells[n]).end, x);
      assert forall i :: 0 <= i < n ==> cells[..n][i] == cells[i];
    }
  }

  /** Exactly the live slots the probe mask lets through are gathered. */
  lemma GatheredExactly(ix: Ooc, probed: seq<nat>, dead: seq<bv8>, x: nat)
    ensures x in GatherSlots(ix, probed, dead) <==> x < ix.nVectors && Probed(ix, probed, x) && !IsSet(dead, x)
  {
    var cells := Probes(probed, |ix.cells|);
    LiveInCellsMember(ix, dead, cells, x);
    LiveInMember(dead, CellRows(ix), ix.nVectors, x);
    if x < ix.nVectors && !IsSet(dead, x)
      && exists c :: c in probed && c < |ix.cells| && CellRange(ix, c).start <= x < CellRange(ix, c).end {
      var c :| c in probed && c < |ix.cells| && CellRange(ix, c).start <= x < CellRange(ix, c).end;
      assert c in cells;
    }
  }

  lemma {:induction false} TotalRowsMono(cells: seq<Cell>, i: nat, j: nat)
    requires i <= j <= |cells|
    ensures TotalRows(cells[..i]) <= TotalRows(cells[..j])
    ensures i < j ==> TotalRows(cells[..i]) + cells[i].count <= TotalRows(cells[..j])
    decreases j - i
  {
    if i < j {
      TotalRowsMono(cells, i, j - 1);
      assert cells[..j][..j - 1] == cells[..j - 1];
    }
  }

  /** Cells of a partition do not overlap, and all lie before the append tail. */
  lemma CellsApart(ix: Ooc, c: nat, d: nat)
    requires Partitioned(ix.cells) && c < d < |ix.cells|
    ensures CellRange(ix, c).end <= CellRange(ix, d).start || ix.nVectors <= CellRange(ix, d).start
    ensures CellRange(ix, d).end <= TotalRows(ix.cells) && CellRange(ix, c).end <= TotalRows(ix.cells)
  {
    TotalRowsMono(ix.cells, c, d);
    TotalRowsMono(ix.cells, c, |ix.cells|);
    TotalRowsMono(ix.cells, d, |ix.cells|);
    assert ix.cells[..|ix.cells|] == ix.cells;
  }

  lemma CellBeforeTail(ix: Ooc, c: nat)
    requires Partitioned(ix.cells) && c < |ix.cells|
    ensures CellRange(ix, c).end <= CellRows(ix)
  {
    TotalRowsMono(ix.cells, c, |ix.cells|);
    assert ix.cells[..|ix.cells|] == ix.cells;
  }

  lemma {:induction false} ProbesDistinct(probed: seq<nat>, lists: nat)
    ensures Distinct(Probes(probed, lists))
  {
    if probed != [] { ProbesDistinct(probed[..|probed| - 1], lists); }
  }

  lemma DistinctJoin(a: seq<int>, b: seq<int>)
    requires Distinct(a) && Distinct(b) && forall x :: x in a ==> x !in b
    ensures Distinct(a + b)
  {
    var c := a + b;
    forall i, j | 0 <= i < j < |c| ensures c[i] != c[j] {
      if i < |a| <= j { assert c[i] in a && c[j] == b[j - |a|]; }
    }
  }

  lemma AscendingDistinct(a: seq<int>)
    requires Ascending(a)
    ensures Distinct(a)
  {
  }

  lemma {:induction false} LiveInCellsDistinct(ix: Ooc, dead: seq<bv8>, cells: seq<nat>)
    requires Partitioned(ix.cells) && Distinct(cells) && forall i :: 0 <= i < |cells| ==> cells[i] < |ix.cells|
    ensures Distinct(LiveInCells(ix, dead, cells))
    ensures forall x :: x in LiveInCells(ix, dead, cells) ==> x < CellRows(ix)
  {
    if cells != [] {
      var n := |cells| - 1;
      var a, r := LiveInCells(ix, dead, cells[..n]), CellRange(ix, cells[n]);
      var b := LiveIn(dead, r.start, r.end);
      LiveInCellsDistinct(ix, dead, cells[..n]);
      LiveInAscending(dead, r.start, r.end);
      CellBeforeTail(ix, cells[n]);
      forall x | x in a ensures x !in b { OtherCell(ix, dead, cells, x); }
      hide LiveIn, LiveInCells;
      AscendingDistinct(b);
      DistinctJoin(a, b);
    }
  }

  lemma OtherCell(ix: Ooc, dead: seq<bv8>, cells: seq<nat>, x: int)
    requires Partitioned(ix.cells) && Distinct(cells) && cells != []
             && forall i :: 0 <= i < |cells| ==> cells[i] < |ix.cells|
    requires x in LiveInCells(ix, dead, cells[..|cells| - 1])
    ensures var r := CellRange(ix, cells[|cells| - 1]); x !in LiveIn(dead, r.start, r.end)
  {
    var n := |cells| - 1;
    LiveInCellsMember(ix, dead, cells[..n], x);
    var i :| 0 <= i < n && CellRange(ix, cells[i]).start <= x < CellRange(ix, cells[i]).end;
    LiveInMember(dead, CellRange(ix, cells[n]).start, CellRange(ix, cells[n]).end, x);
    if cells[i] < cells[n] { CellsApart(ix, cells[i], cells[n]); } else { CellsApart(ix, cells[n], cells[i]); }
  }

  /** No slot is gathered twice, whatever the probe list repeats. */
  lemma GatheredOnce(ix: Ooc, probed: seq<nat>, dead: seq<bv8>)
    requires Partitioned(ix.cells)
    ensures Distinct(GatherSlots(ix, probed, dead))
  {
    ProbesDistinct(probed, |ix.cells|);
    LiveInCellsDistinct(ix, dead, Probes(probed, |ix.cells|));
    LiveInAscending(dead, CellRows(ix), ix.nVectors);
    hide LiveIn, LiveInCells, Probes;
    AscendingDistinct(LiveIn(dead, CellRows(ix), ix.nVectors));
    DistinctJoin(LiveInCells(ix, dead, Probes(probed, |ix.cells|)), LiveIn(dead, CellRows(ix), ix.nVectors));
  }

  /** Probing in ascending cell order gathers slots in ascending order. */
  lemma {:induction false} LiveInCellsAscending(ix: Ooc, dead: seq<bv8>, cells: seq<nat>)
    requires Partitioned(ix.cells) && (forall i :: 0 <= i < |cells| ==> cells[i] < |ix.cells|)
    requires Ascending(cells)
    ensures Ascending(LiveInCells(ix, dead, cells))
    ensures forall i :: 0 <= i < |LiveInCells(ix, dead, cells)| ==>
              cells != [] && LiveInCells(ix, dead, cells)[i] < CellRange(ix, cells[|cells| - 1]).end
                && LiveInCells(ix, dead, cells)[i] < ix.nVectors
  {
    if cells != [] {
      var n := |cells| - 1;
      var r := CellRange(ix, cells[n]);
      LiveInCellsAscending(ix, dead, cells[..n]);
      LiveInAscending(dead, r.start, r.end);
      if n > 0 { CellsApart(ix, cells[n - 1], cells[n]); }
      hide LiveIn, CellRange;
    }
  }

  // ---------------------------------------------------------------- copying the codes

  /** Every row of the index has its code on its page, its scale and its id. */
  predicate Loaded(ix: Ooc) {
    && ix.perPage > 0
    && (forall p :: 0 <= p < |ix.pages| ==> Aligned(ix.pages[p], ix.stride, ix.perPage))
    && ix.nVectors <= Offset(ix.perPage, |ix.pages|)
    && |ix.scales| == ix.nVectors
  }

  lemma TimesMono(d: nat, a: nat, b: nat)
    ensures a <= b ==> d * a <= d * b
  {
    if a <= b { assert d * b == d * a + d * (b - a); }
  }

  lemma PageOf(perPage: nat, pages: nat, slot: nat)
    requires perPage > 0 && slot < Offset(perPage, pages)
    ensures slot / perPage < pages && slot % perPage < perPage
  {
    OffsetIsProduct(perPage, pages);
    TimesMono(perPage, pages, slot / perPage);
  }

  function CodeAt(ix: Ooc, slot: nat): (r: seq<bv8>)
    requires Loaded(ix) && slot < ix.nVectors
    ensures |r| == ix.stride
  {
    PageOf(ix.perPage, |ix.pages|, slot);
    Record(ix.pages[slot / ix.perPage], ix.stride, ix.perPage, slot % ix.perPage)
  }

  /** The pages were filled from one chain of bytes, each with the next full page of it, the last with what is
      left. */
  ghost predicate FilledFrom(ix: Ooc, chain: seq<bv8>) {
    var size := Offset(ix.stride, ix.perPage);
    forall p :: 0 <= p < |ix.pages| && Offset(size, p) <= |chain| ==>
      PageFilled(ix.pages[p], chain, Offset(size, p), size)
  }

  predicate PageFilled(page: seq<bv8>, chain: seq<bv8>, at: nat, size: nat)
    requires at <= |chain|
  {
    var n := if at + size < |chain| then size else |chain| - at;
    n <= |page| && page[..n] == chain[at..at + n]
  }

  lemma {:induction false} OffsetNested(stride: nat, r: nat, p: nat)
    ensures Offset(Offset(stride, r), p) == Offset(stride, r * p)
  {
    if p > 0 {
      OffsetNested(stride, r, p - 1);
      OffsetAdd(stride, r * (p - 1), r);
      assert r * p == r * (p - 1) + r;
    }
  }

  lemma SlotInPage(stride: nat, perPage: nat, slot: nat)
    requires perPage > 0
    ensures Offset(stride, slot) == Offset(Offset(stride, perPage), slot / perPage) + Offset(stride, slot % perPage)
    ensures Offset(stride, slot % perPage) + stride <= Offset(stride, perPage)
  {
    hide Offset;
    var q, m := slot / perPage, slot % perPage;
    assert slot == perPage * q + m;
    OffsetNested(stride, perPage, q);
    OffsetAdd(stride, perPage * q, m);
    OffsetMono(stride, m, perPage);
  }

  lemma InPage(page: seq<bv8>, chain: seq<bv8>, at: nat, size: nat, start: nat, len: nat)
    requires at + start + len <= |chain| && start + len <= size && PageFilled(page, chain, at, size)
    ensures start + len <= |page| && page[start..start + len] == chain[at + start..at + start + len]
  {
    var n := if at + size < |chain| then size else |chain| - at;
    CutOfCut(page, 0, n, start, len);
    CutOfCut(chain, at, n, start, len);
    assert page[0..n] == page[..n];
  }

  lemma CutOfCut(s: seq<bv8>, at: nat, n: nat, start: nat, len: nat)
    requires at + n <= |s| && start + len <= n
    ensures s[at..at + n][start..start + len] == s[at + start..at + start + len]
  {
    var a, b := s[at..at + n][start..start + len], s[at + start..at + start + len];
    forall i | 0 <= i < len ensures a[i] == b[i] { assert a[i] == s[at + start + i]; }
  }

  lemma PageOfSlotFilled(ix: Ooc, chain: seq<bv8>, slot: nat)
    requires Loaded(ix) && Aligned(chain, ix.stride, ix.nVectors) && FilledFrom(ix, chain) && slot < ix.nVectors
    ensures slot / ix.perPage < |ix.pages|
    ensures var at := Offset(Offset(ix.stride, ix.perPage), slot / ix.perPage);
            && at + Offset(ix.stride, slot % ix.perPage) + ix.stride <= |chain|
            && PageFilled(ix.pages[slot / ix.perPage], chain, at, Offset(ix.stride, ix.perPage))
  {
    hide Offset, PageFilled;
    PageOf(ix.perPage, |ix.pages|, slot);
    SlotInPage(ix.stride, ix.perPage, slot);
    OffsetMono(ix.stride, slot, ix.nVectors);
  }

  /** Reading slot by slot through the pages is reading the chain they were filled from record by record. */
  lemma CodeIsRecord(ix: Ooc, chain: seq<bv8>, slot: nat)
    requires Loaded(ix) && Aligned(chain, ix.stride, ix.nVectors) && FilledFrom(ix, chain) && slot < ix.nVectors
    ensures CodeAt(ix, slot) == Record(chain, ix.stride, ix.nVectors, slot)
  {
    hide Offset, PageFilled, FilledFrom;
    PageOfSlotFilled(ix, chain, slot);
    SlotInPage(ix.stride, ix.perPage, slot);
    var size := Offset(ix.stride, ix.perPage);
    InPage(ix.pages[slot / ix.perPage], chain, Offset(size, slot / ix.perPage), size,
           Offset(ix.stride, slot % ix.perPage), ix.stride);
  }

  predicate InIndex(ix: Ooc, slots: seq<int>) {
    forall i :: 0 <= i < |slots| ==> 0 <= slots[i] < ix.nVectors
  }

  function CodesAt(ix: Ooc, slots: seq<int>): (r: seq<seq<bv8>>)
    requires Loaded(ix) && InIndex(ix, slots)
    ensures |r| == |slots| && forall i :: 0 <= i < |slots| ==> r[i] == CodeAt(ix, slots[i])
  {
    seq(|slots|, i requires 0 <= i < |slots| => CodeAt(ix, slots[i]))
  }

  /** Rows on the same page as `slot` follow it there. */
  lemma SamePage(perPage: nat, slot: nat, j: nat)
    requires perPage > 0 && slot % perPage + j < perPage
    ensures (slot + j) / perPage == slot / perPage && (slot + j) % perPage == slot % perPage + j
  {
    var q, m := slot / perPage, slot % perPage;
    assert slot + j == perPage * q + (m + j);
    DivUnique(perPage, slot + j, q, m + j);
  }

  lemma TimesSign(d: nat, e: int)
    ensures e > 0 ==> d * e >= d
    ensures e < 0 ==> d * e <= 0 - d
  {
    if e > 0 { assert d * e == d + d * (e - 1); }
    if e < 0 { assert d * e == 0 - d - d * (0 - e - 1); }
  }

  lemma DivUnique(d: nat, x: nat, q: nat, m: nat)
    requires d > 0 && x == d * q + m && m < d
    ensures x / d == q && x % d == m
  {
    var e := x / d - q;
    assert x == d * (x / d) + x % d;
    assert d * e == m - x % d;
    TimesSign(d, e);
  }

  lemma PageCut(ix: Ooc, slot: nat, take: nat)
    requires Loaded(ix) && slot + take <= ix.nVectors && take > 0 && slot % ix.perPage + take <= ix.perPage
    requires slot / ix.perPage < |ix.pages|
    ensures var at := slot % ix.perPage; var page := ix.pages[slot / ix.perPage];
            && Offset(ix.stride, at) <= Offset(ix.stride, at + take) <= |page|
            && var cut := page[Offset(ix.stride, at)..Offset(ix.stride, at + take)];
               Aligned(cut, ix.stride, take) && InIndex(ix, Span(slot, take))
                 && Records(cut, ix.stride, take) == CodesAt(ix, Span(slot, take))
  {
    hide Offset, Aligned, Records;
    var at, page := slot % ix.perPage, ix.pages[slot / ix.perPage];
    assert Aligned(page, ix.stride, ix.perPage);
    SliceRecords(page, ix.stride, ix.perPage, at, at + take);
    hide Loaded;
    var cut := page[Offset(ix.stride, at)..Offset(ix.stride, at + take)];
    forall j | 0 <= j < take ensures Records(cut, ix.stride, take)[j] == CodesAt(ix, Span(slot, take))[j] {
      SamePage(ix.perPage, slot, j);
      assert Records(page, ix.stride, ix.perPage)[at..at + take][j] == Record(page, ix.stride, ix.perPage, at + j);
    }
  }

  lemma CodesAtJoin(ix: Ooc, a: seq<int>, b: seq<int>)
    requires Loaded(ix) && InIndex(ix, a) && InIndex(ix, b)
    ensures InIndex(ix, a + b) && CodesAt(ix, a + b) == CodesAt(ix, a) + CodesAt(ix, b)
  {
    hide Loaded;
  }

  /** The buffer holds the codes of these slots, in this order. */
  ghost predicate Holds(ix: Ooc, out: seq<bv8>, slots: seq<int>) {
    && Loaded(ix) && InIndex(ix, slots)
    && Aligned(out, ix.stride, |slots|) && Records(out, ix.stride, |slots|) == CodesAt(ix, slots)
  }

  lemma HoldsMore(ix: Ooc, out: seq<bv8>, slots: seq<int>, slot: nat, take: nat)
    requires Holds(ix, out, slots) && slot + take <= ix.nVectors && take > 0 && slot % ix.perPage + take <= ix.perPage
    ensures slot / ix.perPage < |ix.pages|
    ensures var at := slot % ix.perPage; var page := ix.pages[slot / ix.perPage];
            && Offset(ix.stride, at) <= Offset(ix.stride, at + take) <= |page|
            && Holds(ix, out + page[Offset(ix.stride, at)..Offset(ix.stride, at + take)], slots + Span(slot, take))
  {
    assert Loaded(ix);
    PageOf(ix.perPage, |ix.pages|, slot);
    PageCut(ix, slot, take);
    var at, page := slot % ix.perPage, ix.pages[slot / ix.perPage];
    var cut := page[Offset(ix.stride, at)..Offset(ix.stride, at + take)];
    assert Holds(ix, cut, Span(slot, take));
    hide *;
    HoldsJoin(ix, out, slots, cut, Span(slot, take));
  }

  lemma HoldsJoin(ix: Ooc, out: seq<bv8>, slots: seq<int>, cut: seq<bv8>, more: seq<int>)
    requires Holds(ix, out, slots) && Holds(ix, cut, more)
    ensures Holds(ix, out + cut, slots + more)
  {
    ConcatRecords(out, cut, ix.stride, |slots|, |more|);
    CodesAtJoin(ix, slots, more);
    hide Offset, Aligned, Loaded, InIndex, Records, CodesAt;
  }

  /** Copies `start ..< end` page by page. */
  method GatherRun(ix: Ooc, start: nat, end: nat, out0: seq<bv8>, ghost slots: seq<int>) returns (out: seq<bv8>)
    requires Holds(ix, out0, slots) && start <= end <= ix.nVectors
    ensures Holds(ix, out, slots + Span(start, end - start))
  {
    hide Holds, Offset;
    out := out0;
    var slot := start;
    assert slots + Span(start, 0) == slots;
    assert ix.perPage > 0 by { HoldsLoaded(ix, out, slots); }
    while slot < end
      invariant start <= slot <= end
      invariant Holds(ix, out, slots + Span(start, slot - start))
    {
      var at := slot % ix.perPage;
      var left := ix.perPage - at;
      var take := if left < end - slot then left else end - slot;
      HoldsMore(ix, out, slots + Span(start, slot - start), slot, take);
      var page := ix.pages[slot / ix.perPage];
      out := out + page[Offset(ix.stride, at)..Offset(ix.stride, at + take)];
      assert (slots + Span(start, slot - start)) + Span(slot, take) == slots + Span(start, slot + take - start);
      slot := slot + take;
    }
  }

  lemma HoldsLoaded(ix: Ooc, out: seq<bv8>, slots: seq<int>)
    requires Holds(ix, out, slots)
    ensures Loaded(ix) && ix.perPage > 0
  {
  }

  lemma HoldsNothing(ix: Ooc)
    requires Loaded(ix)
    ensures Holds(ix, [], [])
  {
  }

  lemma RunSlotsStep(runs: seq<Range>, i: nat)
    requires i < |runs| && runs[i].start <= runs[i].end
    ensures RunSlots(runs[..i + 1]) == RunSlots(runs[..i]) + Span(runs[i].start, runs[i].end - runs[i].start)
  {
    assert runs[..i + 1][..i] == runs[..i];
  }

  /** `gather_codes_ranges`: the codes of every run, in run order, with no gap. */
  method GatherCodes(ix: Ooc, runs: seq<Range>) returns (out: seq<bv8>)
    requires Loaded(ix) && forall r :: r in runs ==> r.start < r.end <= ix.nVectors
    ensures Holds(ix, out, RunSlots(runs))
  {
    out := [];
    HoldsNothing(ix);
    for i := 0 to |runs|
      invariant Holds(ix, out, RunSlots(runs[..i]))
    {
      hide Holds, RunSlots, Loaded;
      assert runs[i] in runs;
      RunSlotsStep(runs, i);
      out := GatherRun(ix, runs[i].start, runs[i].end, out, RunSlots(runs[..i]));
    }
    assert runs[..|runs|] == runs;
  }
}
