/** Stable cell-contiguous layout: every vector gets one slot in each cell it is assigned to, cells lie
    end to end, and inside a cell vectors keep their order. */
module Partition {
  import opened OocGather

  /** One assignment: vector `row` also lives in `cell`. */
  datatype Place = Place(row: nat, cell: nat)

  /** All assignments of the first `i` vectors and the first `j` cells of vector `i`, in build order. */
  function Places(assignments: seq<seq<nat>>, i: nat, j: nat): seq<Place>
    requires i <= |assignments| && (if i < |assignments| then j <= |assignments[i]| else j == 0)
    decreases i, j
  {
    if j > 0 then Places(assignments, i, j - 1) + [Place(i, assignments[i][j - 1])]
    else if i > 0 then Places(assignments, i - 1, |assignments[i - 1]|)
    else []
  }

  function AllPlaces(assignments: seq<seq<nat>>): seq<Place> {
    Places(assignments, |assignments|, 0)
  }

  /** The vectors of one cell, in order. */
  function Members(places: seq<Place>, cell: nat): seq<nat> {
    if places == [] then [] else
      var last := places[|places| - 1];
      Members(places[..|places| - 1], cell) + if last.cell == cell then [last.row] else []
  }

  lemma MembersPush(places: seq<Place>, p: Place, cell: nat)
    ensures Members(places + [p], cell) == Members(places, cell) + if p.cell == cell then [p.row] else []
  {
    assert (places + [p])[..|places|] == places;
  }

  lemma {:induction false} MembersPrefix(some: seq<Place>, more: seq<Place>, cell: nat)
    ensures |Members(some, cell)| <= |Members(some + more, cell)|
  {
    if more == [] {
      assert some + more == some;
    } else {
      MembersPrefix(some, more[..|more| - 1], cell);
      assert some + more == (some + more[..|more| - 1]) + [more[|more| - 1]];
      MembersPush(some + more[..|more| - 1], more[|more| - 1], cell);
    }
  }

  ghost predicate IsPrefix(some: seq<Place>, all: seq<Place>) {
    exists more :: all == some + more
  }

  lemma {:induction false} PlacesPrefix(assignments: seq<seq<nat>>, i: nat, j: nat, h: nat)
    requires i <= h <= |assignments| && (if i < |assignments| then j <= |assignments[i]| else j == 0)
    requires i == h ==> j == 0
    ensures IsPrefix(Places(assignments, i, j), Places(assignments, h, 0))
    decreases h - i, |assignments| - h, if i < |assignments| then |assignments[i]| - j else 0
  {
    if i == h {
      assert Places(assignments, h, 0) == Places(assignments, i, j) + [];
    } else if j < |assignments[i]| {
      PlacesPrefix(assignments, i, j + 1, h);
      var more :| Places(assignments, h, 0) == Places(assignments, i, j + 1) + more;
      assert Places(assignments, h, 0) == Places(assignments, i, j) + ([Place(i, assignments[i][j])] + more);
    } else {
      PlacesPrefix(assignments, i + 1, 0, h);
    }
  }

  function CountsOf(places: seq<Place>, lists: nat): (r: seq<nat>)
    ensures |r| == lists && forall c :: 0 <= c < lists ==> r[c] == |Members(places, c)|
  {
    seq(lists, c requires 0 <= c < lists => |Members(places, c)|)
  }

  predicate InLists(assignments: seq<seq<nat>>, lists: nat) {
    forall i, j :: 0 <= i < |assignments| && 0 <= j < |assignments[i]| ==> assignments[i][j] < lists
  }

  /** The directory of cells holding `counts` vectors each, laid end to end. */
  function DirectoryOf(counts: seq<nat>): (r: seq<Cell>)
    ensures |r| == |counts|
    ensures forall c :: 0 <= c < |counts| ==> r[c].count == counts[c]
    ensures Partitioned(r)
  {
    if counts == [] then [] else
      var n := |counts| - 1;
      var r := DirectoryOf(counts[..n]);
      var out := r + [Cell(TotalRows(r), counts[n])];
      assert forall c :: 0 <= c <= n ==> out[..c] == r[..c];
      assert r[..n] == r;
      out
  }

  method CountCells(assignments: seq<seq<nat>>, lists: nat) returns (counts: seq<nat>)
    requires InLists(assignments, lists)
    ensures counts == CountsOf(AllPlaces(assignments), lists)
  {
    counts := seq(lists, _ => 0);
    assert counts == CountsOf(Places(assignments, 0, 0), lists);
    for i := 0 to |assignments|
      invariant counts == CountsOf(Places(assignments, i, 0), lists)
    {
      for j := 0 to |assignments[i]|
        invariant counts == CountsOf(Places(assignments, i, j), lists)
      {
        var c := assignments[i][j];
        CountStep(Places(assignments, i, j), Place(i, c), lists);
        counts := counts[c := counts[c] + 1];
      }
    }
  }

  lemma CountStep(places: seq<Place>, p: Place, lists: nat)
    requires p.cell < lists
    ensures var counts := CountsOf(places, lists);
            CountsOf(places + [p], lists) == counts[p.cell := counts[p.cell] + 1]
  {
    forall c | 0 <= c < lists
      ensures CountsOf(places + [p], lists)[c]
                == CountsOf(places, lists)[p.cell := CountsOf(places, lists)[p.cell] + 1][c]
    {
      MembersPush(places, p, c);
    }
  }

  // ---------------------------------------------------------------- placing

  /** The slots filled so far: each cell's range starts with its members so far. */
  ghost predicate Filled(permutation: seq<nat>, cursor: seq<nat>, directory: seq<Cell>, places: seq<Place>) {
    && |cursor| == |directory|
    && (forall c :: 0 <= c < |directory| ==> CellFilled(permutation, cursor, directory, places, c))
  }

  ghost predicate CellFilled(permutation: seq<nat>, cursor: seq<nat>, directory: seq<Cell>, places: seq<Place>, c: nat)
    requires c < |directory| == |cursor|
  {
    && cursor[c] == directory[c].offset + |Members(places, c)|
    && |Members(places, c)| <= directory[c].count
    && directory[c].offset + directory[c].count <= |permutation|
    && permutation[directory[c].offset..cursor[c]] == Members(places, c)
  }

  lemma RangesApart(directory: seq<Cell>, c: nat, d: nat)
    requires Partitioned(directory) && c < d < |directory|
    ensures directory[c].offset + directory[c].count <= directory[d].offset
  {
    TotalRowsMono(directory, c, d);
  }

  lemma CellFilledStep(permutation: seq<nat>, cursor: seq<nat>, directory: seq<Cell>, places: seq<Place>, p: Place,
      c: nat)
    requires Partitioned(directory) && p.cell < |directory| == |cursor| && c < |directory|
    requires CellFilled(permutation, cursor, directory, places, c)
             && CellFilled(permutation, cursor, directory, places, p.cell)
    requires |Members(places + [p], p.cell)| <= directory[p.cell].count
    ensures cursor[p.cell] < |permutation|
    ensures CellFilled(permutation[cursor[p.cell] := p.row], cursor[p.cell := cursor[p.cell] + 1], directory,
              places + [p], c)
  {
    MembersPush(places, p, c);
    MembersPush(places, p, p.cell);
    hide Members, Partitioned;
    var at := cursor[p.cell];
    var next := permutation[at := p.row];
    if c == p.cell {
      assert next[directory[c].offset..at + 1] == permutation[directory[c].offset..at] + [p.row];
    } else {
      if c < p.cell { RangesApart(directory, c, p.cell); } else { RangesApart(directory, p.cell, c); }
      assert next[directory[c].offset..cursor[c]] == permutation[directory[c].offset..cursor[c]];
    }
  }

  lemma FilledStep(permutation: seq<nat>, cursor: seq<nat>, directory: seq<Cell>, places: seq<Place>, p: Place)
    requires Partitioned(directory) && p.cell < |directory| && Filled(permutation, cursor, directory, places)
    requires |Members(places + [p], p.cell)| <= directory[p.cell].count
    ensures cursor[p.cell] < |permutation|
    ensures Filled(permutation[cursor[p.cell] := p.row], cursor[p.cell := cursor[p.cell] + 1], directory, places + [p])
  {
    CellFilledStep(permutation, cursor, directory, places, p, p.cell);
    var next, moved := permutation[cursor[p.cell] := p.row], cursor[p.cell := cursor[p.cell] + 1];
    hide CellFilled, Members, Partitioned;
    forall c | 0 <= c < |directory| ensures CellFilled(next, moved, directory, places + [p], c) {
      CellFilledStep(permutation, cursor, directory, places, p, c);
    }
  }

  lemma FilledStart(permutation: seq<nat>, directory: seq<Cell>)
    requires Partitioned(directory) && |permutation| == TotalRows(directory)
    ensures Filled(permutation, seq(|directory|, c requires 0 <= c < |directory| => directory[c].offset), directory, [])
  {
    forall c | 0 <= c < |directory| ensures directory[c].offset + directory[c].count <= |permutation| {
      TotalRowsMono(directory, c, |directory|);
      assert directory[..|directory|] == directory;
    }
  }

  /** Every cell is as large as the number of vectors assigned to it. */
  ghost predicate Sized(directory: seq<Cell>, assignments: seq<seq<nat>>, lists: nat) {
    |directory| == lists && forall c :: 0 <= c < lists ==> directory[c].count == |Members(AllPlaces(assignments), c)|
  }

  lemma RoomLeft(assignments: seq<seq<nat>>, lists: nat, i: nat, j: nat, directory: seq<Cell>)
    requires InLists(assignments, lists) && i < |assignments| && j < |assignments[i]|
    requires Sized(directory, assignments, lists)
    ensures assignments[i][j] < lists == |directory|
    ensures |Members(Places(assignments, i, j + 1), assignments[i][j])| <= directory[assignments[i][j]].count
  {
    PlacesPrefix(assignments, i, j + 1, |assignments|);
    var some := Places(assignments, i, j + 1);
    var more :| AllPlaces(assignments) == some + more;
    MembersPrefix(some, more, assignments[i][j]);
  }

  /** The cells lie end to end and fill the permutation, and each lists exactly its members, in order. */
  ghost predicate Built(permutation: seq<nat>, directory: seq<Cell>, places: seq<Place>, lists: nat) {
    && |directory| == lists && Partitioned(directory) && TotalRows(directory) == |permutation|
    && forall c :: 0 <= c < lists ==>
         && directory[c].offset + directory[c].count <= |permutation|
         && permutation[directory[c].offset..directory[c].offset + directory[c].count] == Members(places, c)
  }

  /** `build_permutation_soft`: count, lay the cells out, then send each vector to the next free slot of
      each of its cells. Cell `c`'s range of the permutation lists exactly its members, in order. */
  method BuildPermutationSoft(assignments: seq<seq<nat>>, lists: nat)
    returns (permutation: seq<nat>, directory: seq<Cell>)
    requires InLists(assignments, lists)
    ensures Built(permutation, directory, AllPlaces(assignments), lists)
  {
    var counts := CountCells(assignments, lists);
    directory := DirectoryOf(counts);
    permutation := PlaceRows(assignments, lists, directory);
  }

  method PlaceRows(assignments: seq<seq<nat>>, lists: nat, directory: seq<Cell>) returns (permutation: seq<nat>)
    requires InLists(assignments, lists) && Partitioned(directory) && Sized(directory, assignments, lists)
    ensures |permutation| == TotalRows(directory)
    ensures forall c :: 0 <= c < lists ==>
              && directory[c].offset + directory[c].count <= |permutation|
              && permutation[directory[c].offset..directory[c].offset + directory[c].count]
                   == Members(AllPlaces(assignments), c)
  {
    permutation := seq(TotalRows(directory), _ => 0);
    var cursor: seq<nat> := seq(|directory|, c requires 0 <= c < |directory| => directory[c].offset);
    FilledStart(permutation, directory);
    for i := 0 to |assignments|
      invariant |permutation| == TotalRows(directory) && |cursor| == lists
      invariant Filled(permutation, cursor, directory, Places(assignments, i, 0))
    {
      hide Filled, Partitioned, TotalRows, Members, Sized, InLists;
      for j := 0 to |assignments[i]|
        invariant |permutation| == TotalRows(directory) && |cursor| == lists
        invariant Filled(permutation, cursor, directory, Places(assignments, i, j))
      {
        var c := assignments[i][j];
        RoomLeft(assignments, lists, i, j, directory);
        FilledStep(permutation, cursor, directory, Places(assignments, i, j), Place(i, c));
        permutation := permutation[cursor[c] := i];
        cursor := cursor[c := cursor[c] + 1];
      }
    }
    FilledWhole(permutation, cursor, directory, AllPlaces(assignments));
  }

  lemma FilledWhole(permutation: seq<nat>, cursor: seq<nat>, directory: seq<Cell>, places: seq<Place>)
    requires Filled(permutation, cursor, directory, places)
    ensures forall c :: 0 <= c < |directory| && directory[c].count == |Members(places, c)| ==>
              && directory[c].offset + directory[c].count <= |permutation|
              && permutation[directory[c].offset..directory[c].offset + directory[c].count] == Members(places, c)
  {
    forall c | 0 <= c < |directory| && directory[c].count == |Members(places, c)|
      ensures directory[c].offset + directory[c].count <= |permutation|
           && permutation[directory[c].offset..directory[c].offset + directory[c].count] == Members(places, c)
    {
      assert CellFilled(permutation, cursor, directory, places, c);
    }
  }

  // ---------------------------------------------------------------- what the layout means

  /** A vector is listed in a cell exactly when it was assigned to it. */
  lemma {:induction false} MembersExactly(assignments: seq<seq<nat>>, i: nat, j: nat, cell: nat, row: nat)
    requires i <= |assignments| && (if i < |assignments| then j <= |assignments[i]| else j == 0)
    ensures row in Members(Places(assignments, i, j), cell)
       <==> (row < i && cell in assignments[row]) || (row == i < |assignments| && cell in assignments[i][..j])
    decreases i, j
  {
    if j > 0 {
      MembersExactly(assignments, i, j - 1, cell, row);
      MembersPush(Places(assignments, i, j - 1), Place(i, assignments[i][j - 1]), cell);
      assert assignments[i][..j] == assignments[i][..j - 1] + [assignments[i][j - 1]];
    } else if i > 0 {
      MembersExactly(assignments, i - 1, |assignments[i - 1]|, cell, row);
      assert assignments[i - 1][..|assignments[i - 1]|] == assignments[i - 1];
    }
  }

  predicate InOrder(m: seq<nat>, below: nat) {
    && (forall a, b :: 0 <= a < b < |m| ==> m[a] <= m[b])
    && (forall a :: 0 <= a < |m| ==> m[a] < below)
  }

  /** Within a cell vectors keep the order they were read in. */
  lemma {:induction false} MembersStable(assignments: seq<seq<nat>>, i: nat, j: nat, cell: nat)
    requires i <= |assignments| && (if i < |assignments| then j <= |assignments[i]| else j == 0)
    ensures InOrder(Members(Places(assignments, i, j), cell), if j == 0 then i else i + 1)
    decreases i, j
  {
    if j > 0 {
      MembersStable(assignments, i, j - 1, cell);
      MembersPush(Places(assignments, i, j - 1), Place(i, assignments[i][j - 1]), cell);
    } else if i > 0 {
      assert Places(assignments, i, 0) == Places(assignments, i - 1, |assignments[i - 1]|);
      MembersStable(assignments, i - 1, |assignments[i - 1]|, cell);
    }
  }
}
