/** An index on which the out-of-core search and the masked whole-index scan return different rows: two cells
    of one row each, probed last cell first, and a query both rows are equally near to. */
module OocExample {
  import opened Options
  import opened Slots
  import opened Topk
  import opened Candidates
  import opened OocGather
  import opened OocSearch
  import opened OocTheorems

  /** 8 dimensions at 4 bits: 4 bytes a row, 2042 rows in the 8168 bytes of a page. */
  const STRIDE: nat := 4
  const ROWS_PER_PAGE: nat := 2042
  const CODE_PAGE: seq<bv8> := seq(8168, _ => 0)
  const TWO_CELLS: Ooc := Ooc([Cell(0, 1), Cell(1, 1)], 2, STRIDE, ROWS_PER_PAGE, [CODE_PAGE], [0, 0], [7, 8])

  lemma TwoCellsLoaded()
    ensures Loaded(TWO_CELLS)
  {
    OffsetIsProduct(STRIDE, ROWS_PER_PAGE);
    OffsetIsProduct(ROWS_PER_PAGE, 1);
  }

  lemma TwoCellsSlots()
    ensures LiveIn([], 1, 2) == [1] && LiveIn([], 0, 1) == [0] && LiveIn([], 2, 2) == []
    ensures LiveInCells(TWO_CELLS, [], [1]) == [1] && LiveInCells(TWO_CELLS, [], [1, 0]) == [1, 0]
  {
    assert [1, 0][..1] == [1] && [1][..0] == [];
    assert LiveIn([], 1, 1) == [] && LiveIn([], 0, 0) == [];
  }

  lemma TwoCellsRows()
    ensures TWO_CELLS.cells[..0] == [] && TotalRows(TWO_CELLS.cells[..0]) == 0
    ensures TotalRows(TWO_CELLS.cells[..1]) == 1 && TotalRows(TWO_CELLS.cells) == 2
  {
    assert TWO_CELLS.cells[..1] == [Cell(0, 1)];
    assert TWO_CELLS.cells[..1][..0] == [];
  }

  /** Probing cell 1 before cell 0 gathers slot 1 before slot 0. */
  lemma OutOfOrderGather()
    ensures Partitioned(TWO_CELLS.cells) && GatherSlots(TWO_CELLS, [1, 0], []) == [1, 0]
  {
    TwoCellsSlots();
    TwoCellsRows();
    hide LiveIn, LiveInCells, TotalRows;
    assert [1, 0][..1] == [1] && [1][..0] == [];
    assert Probes([1], 2) == [1] && Probes([1, 0], 2) == [1, 0];
  }

  function Tie(code: seq<bv8>, scale: nat): int { 0 }

  lemma TiedHits(scores: seq<int>, mask: seq<bool>)
    requires |scores| == |mask| == 2 && scores == [0, 0] && mask == [true, true]
    ensures TopK(HitsIn(scores, mask, 0, 2), 1) == [Hit(0, 0)]
  {
    var s := HitsIn(scores, mask, 0, 2);
    assert s == [Hit(0, 0), Hit(0, 1)] by { assert HitsIn(scores, mask, 0, 1) == [Hit(0, 0)]; }
    RankedSorted(s);
  }

  lemma TiedAnswer(kernel: Kernel, scores: seq<int>, mask: seq<bool>, local: seq<Hit>)
    requires |scores| == |mask| == 2 && scores == [0, 0] && mask == [true, true]
    requires RanksBySlot(kernel) && Answers(local, kernel, scores, mask, 0, 2, 1)
    ensures local == [Hit(0, 0)]
  {
    TiedHits(scores, mask);
    hide HitsIn, TopK, IsTopK;
  }

  lemma ResolveOne(slot: nat)
    requires slot < 2
    ensures Resolve(TWO_CELLS, [Hit(0, slot)]) == Found([Scored(0, 7 + slot)])
  {
    assert SlotsOf([Hit(0, slot)]) == [slot];
    assert Resolve(TWO_CELLS, [Hit(0, slot)]).hits == [Scored(0, 7 + slot)];
  }

  lemma OocAnswer(kernel: Kernel, slots: seq<int>, local: seq<Hit>)
    requires slots == [1, 0] && Loaded(TWO_CELLS) && InIndex(TWO_CELLS, slots) && RanksBySlot(kernel)
    requires Answers(local, kernel, ScoresAt(TWO_CELLS, slots, Tie), AllowedAt(TWO_CELLS, slots, None), 0, |slots|, 1)
    requires Within(local, |slots|)
    ensures Lift(local, slots) == [Hit(0, 1)]
  {
    hide Loaded, Answers, CodeAt, RanksBySlot;
    assert ScoresAt(TWO_CELLS, slots, Tie) == [0, 0] && AllowedAt(TWO_CELLS, slots, None) == [true, true];
    TiedAnswer(kernel, ScoresAt(TWO_CELLS, slots, Tie), AllowedAt(TWO_CELLS, slots, None), local);
  }

  method SearchTwoCells(kernel: Kernel) returns (found: Found)
    requires Ranks(kernel) && RanksBySlot(kernel)
    ensures found == Found([Scored(0, 8)])
  {
    TwoCellsLoaded();
    OutOfOrderGather();
    ResolveOne(1);
    hide *;
    ghost var local;
    found, local := SearchOoc(TWO_CELLS, [1, 0], [], None, Tie, kernel, 1, 1);
    OocAnswer(kernel, GatherSlots(TWO_CELLS, [1, 0], []), local);
  }

  method ScanTwoCells(kernel: Kernel) returns (found: Found)
    requires Ranks(kernel) && RanksBySlot(kernel)
    ensures found == Found([Scored(0, 7)])
  {
    TwoCellsLoaded();
    var scores := AllScores(TWO_CELLS, Tie);
    assert scores == [0, 0];
    ResolveOne(0);
    hide *;
    var mask := WholeMask(TWO_CELLS, [1, 0], [], None);
    EverythingProbed(mask);
    var hits := kernel(scores, mask, 1);
    KernelHere(kernel, scores, mask, 1);
    TiedAnswer(kernel, scores, mask, hits);
    found := Resolve(TWO_CELLS, hits);
  }

  /** The code of both paths, run on this index for the nearest row: out of core it is row 8, by the whole
      index row 7, with the same kernel, query and probes. */
  method TieOrderMayDiffer(kernel: Kernel) returns (ooc: Found, whole: Found)
    requires Ranks(kernel) && RanksBySlot(kernel)
    ensures ooc == Found([Scored(0, 8)]) && whole == Found([Scored(0, 7)])
  {
    ooc := SearchTwoCells(kernel);
    whole := ScanTwoCells(kernel);
  }

  lemma EverythingProbed(mask: seq<bool>)
    requires IsWholeMask(TWO_CELLS, [1, 0], [], None, mask)
    ensures mask == [true, true]
  {
    TwoCellsRows();
    assert 1 in [1, 0] && 0 in [1, 0];
    assert CellRange(TWO_CELLS, 0).start <= 0 < CellRange(TWO_CELLS, 0).end;
    assert CellRange(TWO_CELLS, 1).start <= 1 < CellRange(TWO_CELLS, 1).end;
    assert Probed(TWO_CELLS, [1, 0], 0) && Probed(TWO_CELLS, [1, 0], 1);
  }
}
