/** The in-memory id-addressed index (`IdMapIndex`): a slot table in which an external id
    occupies at most one slot. The quantizer itself is outside the model: a stored vector is
    its packed code bytes and the bit pattern of its scale. */
module IdMap {
  import opened Options

  type Id = nat

  datatype Code = Code(bytes: seq<bv8>, scale: nat)

  datatype Row = Row(id: Id, code: Code)

  function Ids(rows: seq<Row>): (r: seq<Id>)
    ensures |r| == |rows| && forall i :: 0 <= i < |rows| ==> r[i] == rows[i].id
  {
    seq(|rows|, i requires 0 <= i < |rows| => rows[i].id)
  }

  predicate Unique(rows: seq<Row>) {
    forall i, j :: 0 <= i < j < |rows| ==> rows[i].id != rows[j].id
  }

  /** Where a hash map filled in slot order sends `id`: its last slot, or -1. */
  function SlotOf(rows: seq<Row>, id: Id): (r: int)
    ensures -1 <= r < |rows|
    ensures r >= 0 ==> rows[r].id == id
  {
    if rows == [] then -1
    else if rows[|rows| - 1].id == id then |rows| - 1
    else SlotOf(rows[..|rows| - 1], id)
  }

  /** No slot after the one found holds the id; in particular -1 means no slot holds it. */
  lemma SlotOfLast(rows: seq<Row>, id: Id, i: nat)
    requires i < |rows| && rows[i].id == id
    ensures i <= SlotOf(rows, id)
  {
    if rows[|rows| - 1].id != id { SlotOfLast(rows[..|rows| - 1], id, i); }
  }

  predicate Has(rows: seq<Row>, id: Id) {
    SlotOf(rows, id) >= 0
  }

  /** The table read as a map from external id to stored vector. */
  function ToMap(rows: seq<Row>): (m: map<Id, Code>)
    ensures forall id: Id :: id in m <==> SlotOf(rows, id) >= 0
    ensures forall id: Id :: id in m ==> m[id] == rows[SlotOf(rows, id)].code
  {
    var m := map id | id in Ids(rows) && SlotOf(rows, id) >= 0 :: rows[SlotOf(rows, id)].code;
    assert forall id: Id :: id in m <==> SlotOf(rows, id) >= 0 by {
      forall id: Id | SlotOf(rows, id) >= 0 ensures id in Ids(rows) {
        assert Ids(rows)[SlotOf(rows, id)] == id;
      }
    }
    m
  }

  lemma SlotOfUnique(rows: seq<Row>, i: nat)
    requires Unique(rows) && i < |rows|
    ensures SlotOf(rows, rows[i].id) == i
  {
    SlotOfLast(rows, rows[i].id, i);
  }

  /** `add_with_ids` for one row: refused when the id already has a slot. */
  function Add(rows: seq<Row>, id: Id, code: Code): (r: Option<seq<Row>>)
    ensures r.None? <==> id in ToMap(rows)
    ensures r.Some? ==> r.value == rows + [Row(id, code)]
  {
    if Has(rows, id) then None else Some(rows + [Row(id, code)])
  }

  /** `remove`: the last row moves into the freed slot. */
  function Remove(rows: seq<Row>, id: Id): (r: seq<Row>)
    ensures |r| == if id in ToMap(rows) then |rows| - 1 else |rows|
  {
    var s := SlotOf(rows, id);
    if s < 0 then rows else rows[s := rows[|rows| - 1]][..|rows| - 1]
  }

  lemma RemoveUnique(rows: seq<Row>, id: Id)
    requires Unique(rows)
    ensures Unique(Remove(rows, id))
  {
    var s := SlotOf(rows, id);
    if s >= 0 {
      var n := |rows| - 1;
      var out := Remove(rows, id);
      forall i, j | 0 <= i < j < |out| ensures out[i].id != out[j].id {
        assert out[i] == rows[if i == s then n else i];
        assert out[j] == rows[if j == s then n else j];
      }
    }
  }

  /** Where an id sits after the swap-remove of another one. */
  lemma RemoveSlot(rows: seq<Row>, id: Id, k: Id)
    requires Unique(rows) && Has(rows, id)
    ensures SlotOf(Remove(rows, id), k)
         == if k == id then -1 else if SlotOf(rows, k) == |rows| - 1 then SlotOf(rows, id) else SlotOf(rows, k)
  {
    RemoveUnique(rows, id);
    var out, s, t, u := Remove(rows, id), SlotOf(rows, id), SlotOf(rows, k), SlotOf(Remove(rows, id), k);
    if u >= 0 {
      var from := if u == s then |rows| - 1 else u;
      assert out[u] == rows[from];
      SlotOfUnique(rows, from);
    }
    if t >= 0 && k != id {
      var to := if t == |rows| - 1 then s else t;
      assert out[to] == rows[t];
      SlotOfUnique(out, to);
    }
  }

  lemma RemoveMapAt(rows: seq<Row>, id: Id, k: Id)
    requires Unique(rows) && Has(rows, id)
    ensures k in ToMap(Remove(rows, id)) <==> (k in ToMap(rows) && k != id)
    ensures k in ToMap(Remove(rows, id)) ==> ToMap(Remove(rows, id))[k] == ToMap(rows)[k]
  {
    RemoveSlot(rows, id, k);
  }

  lemma RemoveMap(rows: seq<Row>, id: Id)
    requires Unique(rows)
    ensures ToMap(Remove(rows, id)) == ToMap(rows) - {id}
  {
    if Has(rows, id) {
      hide *;
      var out, m := ToMap(Remove(rows, id)), ToMap(rows);
      forall k: Id ensures k in out <==> (k in m && k !in {id})
                   ensures k in out ==> out[k] == m[k]
      {
        RemoveMapAt(rows, id, k);
      }
      MapMinus(out, m, {id});
    }
  }

  /** The update `aminsert` performs: add, and on a refused id remove it and add again. */
  function Upsert(rows: seq<Row>, id: Id, code: Code): (r: seq<Row>)
    ensures |r| == |rows| + if id in ToMap(rows) then 0 else 1
  {
    match Add(rows, id, code)
    case Some(out) => out
    case None => Remove(rows, id) + [Row(id, code)]
  }

  lemma AppendSlot(rows: seq<Row>, row: Row, k: Id)
    ensures SlotOf(rows + [row], k) == if k == row.id then |rows| else SlotOf(rows, k)
  {
    assert (rows + [row])[..|rows|] == rows;
  }

  lemma AppendMap(rows: seq<Row>, row: Row)
    ensures ToMap(rows + [row]) == ToMap(rows)[row.id := row.code]
  {
    assert (rows + [row])[..|rows|] == rows;
    var m := ToMap(rows)[row.id := row.code];
    forall k: Id ensures k in ToMap(rows + [row]) <==> k in m
                 ensures k in m ==> ToMap(rows + [row])[k] == m[k]
    {
      AppendSlot(rows, row, k);
    }
  }

  lemma AppendUnique(rows: seq<Row>, row: Row)
    requires Unique(rows) && !Has(rows, row.id)
    ensures Unique(rows + [row])
  {
    forall i | 0 <= i < |rows| ensures rows[i].id != row.id {
      if rows[i].id == row.id { SlotOfLast(rows, row.id, i); }
    }
  }

  lemma UpsertShape(rows: seq<Row>, id: Id, code: Code) returns (base: seq<Row>)
    requires Unique(rows)
    ensures base == Remove(rows, id) && Unique(base) && !Has(base, id)
    ensures Upsert(rows, id, code) == base + [Row(id, code)]
    ensures ToMap(base) == ToMap(rows) - {id}
  {
    base := Remove(rows, id);
    RemoveUnique(rows, id);
    RemoveMap(rows, id);
    assert id in ToMap(base) <==> Has(base, id);
  }

  /** An upsert is a map update, keeps ids distinct, and re-adding after the removal never fails. */
  lemma UpsertFacts(rows: seq<Row>, id: Id, code: Code)
    requires Unique(rows)
    ensures Unique(Upsert(rows, id, code))
    ensures ToMap(Upsert(rows, id, code)) == ToMap(rows)[id := code]
    ensures Add(Remove(rows, id), id, code).Some?
  {
    var base := UpsertShape(rows, id, code);
    AppendMap(base, Row(id, code));
    AppendUnique(base, Row(id, code));
  }

  lemma IdsAppend(rows: seq<Row>, row: Row)
    ensures Ids(rows + [row]) == Ids(rows) + [row.id]
  {
  }

  lemma SwapOutMultiset(ids: seq<Id>, s: nat)
    requires s < |ids|
    ensures multiset(ids[s := ids[|ids| - 1]][..|ids| - 1]) == multiset(ids) - multiset{ids[s]}
  {
    var n := |ids| - 1;
    assert ids == ids[..n] + [ids[n]];
    if s < n {
      var a, b := ids[..s], ids[s + 1..n];
      assert ids[..n] == a + [ids[s]] + b;
      assert ids[s := ids[n]][..n] == a + [ids[n]] + b;
    } else {
      assert ids[s := ids[n]][..n] == ids[..n];
    }
  }

  lemma RemoveIds(rows: seq<Row>, id: Id)
    requires Has(rows, id)
    ensures multiset(Ids(Remove(rows, id))) == multiset(Ids(rows)) - multiset{id}
  {
    var s, n, ids := SlotOf(rows, id), |rows|, Ids(rows);
    SwapOutMultiset(ids, s);
    assert Ids(Remove(rows, id)) == ids[s := ids[n - 1]][..n - 1];
  }

  /** A fresh id extends the id table by one; an id already present leaves it a permutation of itself. */
  lemma UpsertIds(rows: seq<Row>, id: Id, code: Code)
    ensures multiset(Ids(Upsert(rows, id, code)))
         == multiset(Ids(rows)) + if id in ToMap(rows) then multiset{} else multiset{id}
  {
    var base := Remove(rows, id);
    assert Upsert(rows, id, code) == base + [Row(id, code)];
    IdsAppend(base, Row(id, code));
    assert multiset(Ids(base) + [id]) == multiset(Ids(base)) + multiset{id};
    if Has(rows, id) {
      RemoveIds(rows, id);
      assert id in multiset(Ids(rows)) by { assert Ids(rows)[SlotOf(rows, id)] == id; }
    }
  }

  lemma MapMerge(got: map<Id, Code>, had: map<Id, Code>, over: map<Id, Code>)
    requires forall k: Id :: k in got <==> (k in had || k in over)
    requires forall k: Id :: k in got ==> got[k] == if k in over then over[k] else had[k]
    ensures got == had + over
  {
  }

  lemma MapMinus(got: map<Id, Code>, had: map<Id, Code>, gone: set<Id>)
    requires forall k: Id :: k in got <==> (k in had && k !in gone)
    requires forall k: Id :: k in got ==> got[k] == had[k]
    ensures got == had - gone
  {
  }
}
