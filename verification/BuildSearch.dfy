/** What the build lays out against what a search looks at: probing a cell looks at exactly the vectors that
    were assigned to it. */
module BuildSearch {
  import opened Bitmap
  import opened Candidates
  import opened OocGather
  import opened Partition

  // ---------------------------------------------------------------- the slots the build fills

  function InCell(members: seq<nat>, c: nat): (r: seq<Place>)
    ensures |r| == |members| && forall i :: 0 <= i < |members| ==> r[i] == Place(members[i], c)
  {
    seq(|members|, i requires 0 <= i < |members| => Place(members[i], c))
  }

  /** Slot by slot, the vector and the cell a slot was filled for: all of cell 0, then all of cell 1, and so on. */
  function SlotPlaces(places: seq<Place>, lists: nat): seq<Place> {
    if lists == 0 then [] else SlotPlaces(places, lists - 1) + InCell(Members(places, lists - 1), lists - 1)
  }

  lemma {:induction false} SlotOfMember(places: seq<Place>, lists: nat, c: nat, i: nat)
    requires c < lists && i < |Members(places, c)|
    ensures var s := |SlotPlaces(places, c)| + i;
            s < |SlotPlaces(places, lists)| && SlotPlaces(places, lists)[s] == Place(Members(places, c)[i], c)
    decreases lists
  {
    hide Members;
    if c < lists - 1 { SlotOfMember(places, lists - 1, c, i); }
  }

  lemma {:induction false} MemberOfSlot(places: seq<Place>, lists: nat, s: nat)
    requires s < |SlotPlaces(places, lists)|
    ensures var p := SlotPlaces(places, lists)[s]; var start := |SlotPlaces(places, p.cell)|;
            && p.cell < lists && start <= s < start + |Members(places, p.cell)|
            && Members(places, p.cell)[s - start] == p.row
    decreases lists
  {
    hide Members;
    if s < |SlotPlaces(places, lists - 1)| { MemberOfSlot(places, lists - 1, s); }
  }

  /** A slot was filled for the cell whose stretch of slots it is in. */
  lemma CellOfSlot(places: seq<Place>, lists: nat, s: nat, c: nat)
    requires s < |SlotPlaces(places, lists)| && c < lists
    ensures |SlotPlaces(places, c)| <= s < |SlotPlaces(places, c)| + |Members(places, c)| <==>
            SlotPlaces(places, lists)[s].cell == c
  {
    hide *;
    var start := |SlotPlaces(places, c)|;
    if SlotPlaces(places, lists)[s].cell == c {
      MemberOfSlot(places, lists, s);
    } else if start <= s < start + |Members(places, c)| {
      SlotOfMember(places, lists, c, s - start);
    }
  }

  lemma {:induction false} CellsStart(permutation: seq<nat>, directory: seq<Cell>, places: seq<Place>, lists: nat,
      c: nat)
    requires Built(permutation, directory, places, lists) && c <= lists
    ensures |SlotPlaces(places, c)| == TotalRows(directory[..c])
    ensures c < lists ==> directory[c].offset == |SlotPlaces(places, c)| && directory[c].count == |Members(places, c)|
    decreases c
  {
    hide Members;
    if c > 0 {
      CellsStart(permutation, directory, places, lists, c - 1);
      assert directory[..c][..c - 1] == directory[..c - 1];
    }
  }

  lemma CellSlice(permutation: seq<nat>, directory: seq<Cell>, places: seq<Place>, lists: nat, c: nat)
    requires Built(permutation, directory, places, lists) && c < lists
    ensures var start, m := |SlotPlaces(places, c)|, Members(places, c);
            start + |m| <= |permutation| && permutation[start..start + |m|] == m
  {
    hide Members, SlotPlaces, Partitioned, TotalRows;
    CellsStart(permutation, directory, places, lists, c);
  }

  /** The `i`-th slot of a cell holds its `i`-th member. */
  lemma MemberAt(permutation: seq<nat>, directory: seq<Cell>, places: seq<Place>, lists: nat, c: nat, i: nat)
    requires Built(permutation, directory, places, lists) && c < lists && i < |Members(places, c)|
    ensures |SlotPlaces(places, c)| + |Members(places, c)| <= |permutation|
    ensures permutation[|SlotPlaces(places, c)| + i] == Members(places, c)[i]
  {
    hide *;
    CellSlice(permutation, directory, places, lists, c);
    SliceAt(permutation, |SlotPlaces(places, c)|, Members(places, c), i);
  }

  lemma SliceAt(p: seq<nat>, start: nat, m: seq<nat>, i: nat)
    requires start + |m| <= |p| && p[start..start + |m|] == m && i < |m|
    ensures p[start + i] == m[i]
  {
    assert p[start..start + |m|][i] == p[start + i];
  }

  lemma PlaceAt(permutation: seq<nat>, directory: seq<Cell>, places: seq<Place>, lists: nat, s: nat)
    requires Built(permutation, directory, places, lists) && s < |SlotPlaces(places, lists)|
    ensures s < |permutation| && permutation[s] == SlotPlaces(places, lists)[s].row
  {
    hide *;
    MemberOfSlot(places, lists, s);
    var c := SlotPlaces(places, lists)[s].cell;
    MemberAt(permutation, directory, places, lists, c, s - |SlotPlaces(places, c)|);
  }

  /** The permutation sends each slot to the vector it was filled for. */
  lemma BuiltPlaces(permutation: seq<nat>, directory: seq<Cell>, places: seq<Place>, lists: nat)
    requires Built(permutation, directory, places, lists)
    ensures |permutation| == |SlotPlaces(places, lists)|
    ensures forall s :: 0 <= s < |permutation| ==> permutation[s] == SlotPlaces(places, lists)[s].row
  {
    hide Members, SlotPlaces;
    CellsStart(permutation, directory, places, lists, lists);
    assert directory[..lists] == directory;
    hide Built;
    forall s: nat | s < |permutation| ensures permutation[s] == SlotPlaces(places, lists)[s].row {
      PlaceAt(permutation, directory, places, lists, s);
    }
  }

  // ---------------------------------------------------------------- the law

  /** An index with the cells of a build, perhaps with rows appended since. */
  ghost predicate BuiltIndex(ix: Ooc, permutation: seq<nat>, places: seq<Place>, lists: nat) {
    Built(permutation, ix.cells, places, lists) && |permutation| <= ix.nVectors
  }

  lemma BuiltSize(permutation: seq<nat>, directory: seq<Cell>, places: seq<Place>, lists: nat)
    requires Built(permutation, directory, places, lists)
    ensures |directory| == lists && TotalRows(directory) == |permutation|
  {
  }

  lemma IndexIsBuilt(ix: Ooc, permutation: seq<nat>, places: seq<Place>, lists: nat)
    requires BuiltIndex(ix, permutation, places, lists)
    ensures Built(permutation, ix.cells, places, lists) && |permutation| <= ix.nVectors
  {
  }

  lemma RangeOfCell(ix: Ooc, permutation: seq<nat>, places: seq<Place>, lists: nat, c: nat)
    requires BuiltIndex(ix, permutation, places, lists) && c < lists
    ensures var start := |SlotPlaces(places, c)|; CellRange(ix, c) == Range(start, start + |Members(places, c)|)
    ensures |SlotPlaces(places, c)| + |Members(places, c)| <= |permutation|
  {
    hide Members, SlotPlaces, Partitioned, TotalRows;
    CellsStart(permutation, ix.cells, places, lists, c);
  }

  lemma InRangeIff(ix: Ooc, permutation: seq<nat>, places: seq<Place>, lists: nat, c: nat, s: nat)
    requires BuiltIndex(ix, permutation, places, lists) && c < lists && s < |SlotPlaces(places, lists)|
    ensures CellRange(ix, c).start <= s < CellRange(ix, c).end <==> SlotPlaces(places, lists)[s].cell == c
  {
    hide *;
    RangeOfCell(ix, permutation, places, lists, c);
    CellOfSlot(places, lists, s, c);
  }

  /** The mask lets a slot through exactly when it was filled for a probed cell, or appended after the build. */
  lemma ProbedIffPlaced(ix: Ooc, permutation: seq<nat>, places: seq<Place>, lists: nat, probed: seq<nat>, s: nat)
    requires BuiltIndex(ix, permutation, places, lists)
    ensures |permutation| == |SlotPlaces(places, lists)|
    ensures Probed(ix, probed, s) <==> s >= |permutation| || SlotPlaces(places, lists)[s].cell in probed
  {
    hide SlotPlaces, Members, CellRange, Built;
    BuiltPlaces(permutation, ix.cells, places, lists);
    assert lists == |ix.cells| && TotalRows(ix.cells) == |permutation| by {
      BuiltSize(permutation, ix.cells, places, lists);
    }
    if s < |permutation| {
      MemberOfSlot(places, lists, s);
      forall c: nat | c < lists
        ensures CellRange(ix, c).start <= s < CellRange(ix, c).end <==> SlotPlaces(places, lists)[s].cell == c
      {
        InRangeIff(ix, permutation, places, lists, c, s);
      }
    }
  }

  /** The out-of-core search reads a slot exactly when it is live and was filled for a probed cell, or appended
      after the build. */
  lemma GatheredIffPlaced(ix: Ooc, permutation: seq<nat>, places: seq<Place>, lists: nat, probed: seq<nat>,
      dead: seq<bv8>, s: nat)
    requires BuiltIndex(ix, permutation, places, lists) && s < ix.nVectors
    ensures |permutation| == |SlotPlaces(places, lists)|
    ensures s in GatherSlots(ix, probed, dead) <==>
            !IsSet(dead, s) && (s >= |permutation| || SlotPlaces(places, lists)[s].cell in probed)
  {
    GatheredExactly(ix, probed, dead, s);
    ProbedIffPlaced(ix, permutation, places, lists, probed, s);
  }

  lemma OneProbe(ix: Ooc, c: nat)
    requires c < |ix.cells| && CellRange(ix, c).start <= CellRange(ix, c).end && CellRows(ix) <= ix.nVectors
    ensures var r := CellRange(ix, c);
            GatherSlots(ix, [c], []) == Span(r.start, r.end - r.start) + Span(CellRows(ix), ix.nVectors - CellRows(ix))
  {
    var r := CellRange(ix, c);
    assert [c][..0] == [] && Probes([], |ix.cells|) == [] && Probes([c], |ix.cells|) == [c];
    AllLive(r.start, r.end);
    AllLive(CellRows(ix), ix.nVectors);
    assert LiveInCells(ix, [], [c][..0]) == [];
    hide LiveIn, CellRange, CellRows;
    assert LiveInCells(ix, [], [c]) == LiveIn([], r.start, r.end);
  }

  lemma OneCellSlots(ix: Ooc, permutation: seq<nat>, places: seq<Place>, lists: nat, c: nat)
    requires BuiltIndex(ix, permutation, places, lists) && c < lists
    ensures var n := |permutation|;
            && |SlotPlaces(places, c)| + |Members(places, c)| <= n
            && GatherSlots(ix, [c], []) ==
               Span(|SlotPlaces(places, c)|, |Members(places, c)|) + Span(n, ix.nVectors - n)
  {
    RangeOfCell(ix, permutation, places, lists, c);
    assert CellRows(ix) == |permutation| && |ix.cells| == lists;
    hide *;
    OneProbe(ix, c);
  }

  lemma TwoSpans(g: seq<int>, start: nat, k: nat, tail: nat, more: nat)
    requires g == Span(start, k) + Span(tail, more)
    ensures |g| == k + more && (forall i :: 0 <= i < k ==> g[i] == start + i)
    ensures forall i :: k <= i < |g| ==> g[i] == tail + i - k
  {
  }

  /** Probing one cell reads, in build order, exactly the vectors assigned to it, and then the appended rows. */
  lemma OneCellGathered(ix: Ooc, permutation: seq<nat>, places: seq<Place>, lists: nat, c: nat)
    requires BuiltIndex(ix, permutation, places, lists) && c < lists
    ensures var m, g, n := Members(places, c), GatherSlots(ix, [c], []), |permutation|;
            && |g| == |m| + (ix.nVectors - n)
            && (forall i :: 0 <= i < |m| ==> 0 <= g[i] < n && permutation[g[i]] == m[i])
            && (forall i :: |m| <= i < |g| ==> g[i] == n + i - |m|)
  {
    hide *;
    OneCellSlots(ix, permutation, places, lists, c);
    IndexIsBuilt(ix, permutation, places, lists);
    var m, g, start := Members(places, c), GatherSlots(ix, [c], []), |SlotPlaces(places, c)|;
    TwoSpans(g, start, |m|, |permutation|, ix.nVectors - |permutation|);
    forall i: nat | i < |m| ensures 0 <= g[i] < |permutation| && permutation[g[i]] == m[i] {
      MemberAt(permutation, ix.cells, places, lists, c, i);
    }
  }

  lemma ReadRowIsAssigned(ix: Ooc, permutation: seq<nat>, assignments: seq<seq<nat>>, lists: nat, probed: seq<nat>,
      s: nat) returns (c: nat)
    requires BuiltIndex(ix, permutation, AllPlaces(assignments), lists) && s < |permutation|
    requires s in GatherSlots(ix, probed, [])
    ensures c in probed && permutation[s] < |assignments| && c in assignments[permutation[s]]
  {
    var places := AllPlaces(assignments);
    hide SlotPlaces, GatherSlots, Built, Places, Members, IsSet;
    BuiltPlaces(permutation, ix.cells, places, lists);
    GatheredIffPlaced(ix, permutation, places, lists, probed, [], s);
    MemberOfSlot(places, lists, s);
    c := SlotPlaces(places, lists)[s].cell;
    MembersExactly(assignments, |assignments|, 0, c, permutation[s]);
  }

  lemma SlotOfRow(permutation: seq<nat>, directory: seq<Cell>, places: seq<Place>, lists: nat, c: nat, row: nat)
    returns (s: nat)
    requires Built(permutation, directory, places, lists) && c < lists && row in Members(places, c)
    ensures s < |permutation| == |SlotPlaces(places, lists)| && permutation[s] == row
    ensures SlotPlaces(places, lists)[s].cell == c
  {
    hide *;
    BuiltPlaces(permutation, directory, places, lists);
    var i :| 0 <= i < |Members(places, c)| && Members(places, c)[i] == row;
    SlotOfMember(places, lists, c, i);
    s := |SlotPlaces(places, c)| + i;
  }

  lemma AssignedRowIsRead(ix: Ooc, permutation: seq<nat>, assignments: seq<seq<nat>>, lists: nat, probed: seq<nat>,
      row: nat, c: nat) returns (s: nat)
    requires BuiltIndex(ix, permutation, AllPlaces(assignments), lists) && c < lists
    requires row < |assignments| && c in probed && c in assignments[row]
    ensures s < |permutation| && s in GatherSlots(ix, probed, []) && permutation[s] == row
  {
    hide Built, Members, Places, SlotPlaces, GatherSlots, IsSet;
    var places := AllPlaces(assignments);
    MembersExactly(assignments, |assignments|, 0, c, row);
    s := SlotOfRow(permutation, ix.cells, places, lists, c, row);
    GatheredIffPlaced(ix, permutation, places, lists, probed, [], s);
    NoneSet(s);
  }

  lemma NoneSet(s: nat)
    ensures !IsSet([], s)
  {
  }

  /** From a vector's side: it is among the rows read exactly when some probed cell is one of its own. */
  lemma RowReadIff(ix: Ooc, permutation: seq<nat>, assignments: seq<seq<nat>>, lists: nat, probed: seq<nat>, row: nat)
    requires BuiltIndex(ix, permutation, AllPlaces(assignments), lists)
    requires InLists(assignments, lists) && row < |assignments|
    ensures (exists s: nat :: s < |permutation| && s in GatherSlots(ix, probed, []) && permutation[s] == row) <==>
            (exists c :: c in probed && c in assignments[row])
  {
    if s: nat :| s < |permutation| && s in GatherSlots(ix, probed, []) && permutation[s] == row {
      var c := ReadRowIsAssigned(ix, permutation, assignments, lists, probed, s);
    }
    if c :| c in probed && c in assignments[row] {
      var s := AssignedRowIsRead(ix, permutation, assignments, lists, probed, row, c);
    }
    hide *;
  }
}
