/** Two-stage multivector search: token hits are united per document by their best score and capped, and
    the survivors are ranked by exact MaxSim. */
module Colbert {
  import opened Options

  // ---------------------------------------------------------------- grouping token rows

  /** One token row of the heap query; a missing element stands for NULL or a non-finite number. */
  datatype TokenRow = TokenRow(id: Option<int>, token: Option<seq<Option<int>>>)

  datatype Doc = Doc(id: int, flat: seq<int>)

  predicate Usable(r: TokenRow) { r.id.Some? && r.token.Some? }

  predicate Good(r: TokenRow, dim: nat)
    requires Usable(r)
  {
    |r.token.value| == dim && forall i :: 0 <= i < dim ==> r.token.value[i].Some?
  }

  predicate Of(r: TokenRow, id: int) { Usable(r) && r.id.value == id }

  function Elements(token: seq<Option<int>>): (r: seq<int>)
    requires forall i :: 0 <= i < |token| ==> token[i].Some?
    ensures |r| == |token| && forall i :: 0 <= i < |token| ==> r[i] == token[i].value
  {
    seq(|token|, i requires 0 <= i < |token| => token[i].value)
  }

  /** Every token of the document has the right length and only numbers. */
  predicate AllGood(rows: seq<TokenRow>, id: int, dim: nat) {
    forall i :: 0 <= i < |rows| && Of(rows[i], id) ==> Good(rows[i], dim)
  }

  /** The document's good tokens laid end to end. */
  function Flat(rows: seq<TokenRow>, id: int, dim: nat): seq<int> {
    if rows == [] then [] else
      var r := rows[|rows| - 1];
      Flat(rows[..|rows| - 1], id, dim) + if Of(r, id) && Good(r, dim) then Elements(r.token.value) else []
  }

  predicate Kept(rows: seq<TokenRow>, id: int, dim: nat) {
    AllGood(rows, id, dim) && Flat(rows, id, dim) != []
  }

  /** Rows come ordered by document. */
  predicate ByDoc(rows: seq<TokenRow>) {
    forall i, j :: 0 <= i < j < |rows| && Usable(rows[i]) && Usable(rows[j]) ==> rows[i].id.value <= rows[j].id.value
  }

  predicate IdsIncrease(docs: seq<Doc>) {
    forall i, j :: 0 <= i < j < |docs| ==> docs[i].id < docs[j].id
  }

  /** The documents below `limit` that survive, in order, with all their tokens. */
  ghost predicate Grouped(docs: seq<Doc>, rows: seq<TokenRow>, dim: nat, limit: Option<int>) {
    && IdsIncrease(docs)
    && (forall i :: 0 <= i < |docs| ==>
          Kept(rows, docs[i].id, dim) && docs[i].flat == Flat(rows, docs[i].id, dim)
            && (limit.Some? ==> docs[i].id < limit.value))
    && (forall id :: Kept(rows, id, dim) && (limit.Some? ==> id < limit.value) ==>
         exists i :: 0 <= i < |docs| && docs[i].id == id)
  }

  lemma RowPush(rows: seq<TokenRow>, r: TokenRow, id: int, dim: nat)
    ensures Flat(rows + [r], id, dim) ==
              Flat(rows, id, dim) + if Of(r, id) && Good(r, dim) then Elements(r.token.value) else []
    ensures AllGood(rows + [r], id, dim) <==> AllGood(rows, id, dim) && (Of(r, id) ==> Good(r, dim))
    ensures !Of(r, id) ==>
              (Kept(rows + [r], id, dim) <==> Kept(rows, id, dim)) && Flat(rows + [r], id, dim) == Flat(rows, id, dim)
  {
    var all := rows + [r];
    assert all[..|rows|] == rows && all[|rows|] == r;
    assert forall i :: 0 <= i < |rows| ==> all[i] == rows[i];
  }

  lemma {:induction false} NoRowsNoFlat(rows: seq<TokenRow>, id: int, dim: nat)
    requires forall i :: 0 <= i < |rows| ==> !Of(rows[i], id)
    ensures Flat(rows, id, dim) == [] && AllGood(rows, id, dim) && !Kept(rows, id, dim)
  {
    if rows != [] { NoRowsNoFlat(rows[..|rows| - 1], id, dim); }
  }

  /** The loop's state: finished documents, and the one being collected. */
  ghost predicate Collecting(rows: seq<TokenRow>, docs: seq<Doc>, cur: Option<int>, flat: seq<int>, bad: bool,
      dim: nat) {
    && (forall i :: 0 <= i < |rows| && Usable(rows[i]) ==> cur.Some? && rows[i].id.value <= cur.value)
    && (cur.None? ==> docs == [])
    && (cur.Some? ==> Grouped(docs, rows, dim, cur))
    && (cur.Some? ==> (bad <==> !AllGood(rows, cur.value, dim)) && (!bad ==> flat == Flat(rows, cur.value, dim)))
  }

  function Close(docs: seq<Doc>, cur: Option<int>, flat: seq<int>, bad: bool): seq<Doc> {
    if cur.Some? && !bad && flat != [] then docs + [Doc(cur.value, flat)] else docs
  }

  lemma CloseGroups(rows: seq<TokenRow>, docs: seq<Doc>, cur: Option<int>, flat: seq<int>, bad: bool, dim: nat)
    requires Collecting(rows, docs, cur, flat, bad, dim)
    ensures Grouped(Close(docs, cur, flat, bad), rows, dim, None)
  {
    var out := Close(docs, cur, flat, bad);
    hide Flat, AllGood;
    forall id | Kept(rows, id, dim) ensures exists i :: 0 <= i < |out| && out[i].id == id {
      if cur.None? || id > cur.value {
        assert forall i :: 0 <= i < |rows| ==> !Of(rows[i], id);
        NoRowsNoFlat(rows, id, dim);
      } else if id == cur.value {
        assert out[|docs|].id == id;
      } else {
        var i :| 0 <= i < |docs| && docs[i].id == id;
        assert out[i].id == id;
      }
    }
  }

  /** No row of a later document has been read. */
  lemma NoneLater(rows: seq<TokenRow>, docs: seq<Doc>, cur: Option<int>, flat: seq<int>, bad: bool, dim: nat, id: int)
    requires Collecting(rows, docs, cur, flat, bad, dim) && (cur.Some? ==> cur.value < id)
    ensures Flat(rows, id, dim) == [] && AllGood(rows, id, dim) && !Kept(rows, id, dim)
    ensures forall i :: 0 <= i < |rows| && Usable(rows[i]) ==> rows[i].id.value <= id
  {
    assert forall i :: 0 <= i < |rows| ==> !Of(rows[i], id);
    NoRowsNoFlat(rows, id, dim);
  }

  lemma Turn(rows: seq<TokenRow>, docs: seq<Doc>, cur: Option<int>, flat: seq<int>, bad: bool, dim: nat, id: int)
    requires Collecting(rows, docs, cur, flat, bad, dim) && (cur.Some? ==> cur.value < id)
    ensures Collecting(rows, Close(docs, cur, flat, bad), Some(id), [], false, dim)
  {
    var out := Close(docs, cur, flat, bad);
    CloseGroups(rows, docs, cur, flat, bad, dim);
    NoneLater(rows, docs, cur, flat, bad, dim, id);
    forall k | id <= k ensures !Kept(rows, k, dim) { NoneLater(rows, docs, cur, flat, bad, dim, k); }
    hide Flat, AllGood, Kept, Close;
    assert forall i :: 0 <= i < |out| ==> Kept(rows, out[i].id, dim);
    assert Grouped(out, rows, dim, Some(id));
  }

  lemma Extend(rows: seq<TokenRow>, docs: seq<Doc>, flat: seq<int>, bad: bool, dim: nat, r: TokenRow, more: seq<int>)
    requires Usable(r) && Collecting(rows, docs, r.id, flat, bad, dim)
    requires Good(r, dim) ==> more == Elements(r.token.value)
    ensures Collecting(rows + [r], docs, r.id, flat + more, bad || !Good(r, dim), dim)
  {
    var id := r.id.value;
    RowPush(rows, r, id, dim);
    forall k | k != id
      ensures (Kept(rows + [r], k, dim) <==> Kept(rows, k, dim)) && Flat(rows + [r], k, dim) == Flat(rows, k, dim)
    {
      RowPush(rows, r, k, dim);
    }
    hide Flat, AllGood, Kept, Good;
  }

  lemma Skip(rows: seq<TokenRow>, docs: seq<Doc>, cur: Option<int>, flat: seq<int>, bad: bool, dim: nat, r: TokenRow)
    requires !Usable(r) && Collecting(rows, docs, cur, flat, bad, dim)
    ensures Collecting(rows + [r], docs, cur, flat, bad, dim)
  {
    forall k: int
      ensures (AllGood(rows + [r], k, dim) <==> AllGood(rows, k, dim))
              && Flat(rows + [r], k, dim) == Flat(rows, k, dim)
    {
      RowPush(rows, r, k, dim);
    }
    forall k: int ensures Kept(rows + [r], k, dim) <==> Kept(rows, k, dim) {
      RowPush(rows, r, k, dim);
    }
    hide Flat, AllGood, Kept;
  }

  /** Appends the token's numbers up to the first one missing. */
  method AppendToken(flat0: seq<int>, token: seq<Option<int>>) returns (flat: seq<int>, ok: bool)
    ensures ok <==> forall i :: 0 <= i < |token| ==> token[i].Some?
    ensures ok ==> flat == flat0 + Elements(token)
    ensures |flat| >= |flat0| && flat[..|flat0|] == flat0
  {
    flat := flat0;
    for i := 0 to |token|
      invariant forall j :: 0 <= j < i ==> token[j].Some?
      invariant flat == flat0 + Elements(token[..i])
    {
      if token[i].None? {
        ok := false;
        return;
      }
      flat := flat + [token[i].value];
    }
    ok := true;
    assert token[..|token|] == token;
  }

  /** The grouping loop of `collect_token_rows`: a document appears exactly when all its tokens are good and
      it has at least one, with exactly its tokens. */
  method CollectTokenRows(rows: seq<TokenRow>, dim: nat) returns (docs: seq<Doc>)
    requires ByDoc(rows)
    ensures Grouped(docs, rows, dim, None)
  {
    docs := [];
    var cur: Option<int> := None;
    var flat: seq<int> := [];
    var bad := false;
    for i := 0 to |rows|
      invariant Collecting(rows[..i], docs, cur, flat, bad, dim)
      invariant cur.Some? ==> exists j :: 0 <= j < i && Usable(rows[j]) && rows[j].id == cur
    {
      hide Collecting;
      var r := rows[i];
      assert rows[..i + 1] == rows[..i] + [r];
      if !Usable(r) {
        Skip(rows[..i], docs, cur, flat, bad, dim, r);
      } else {
        if cur != r.id {
          Turn(rows[..i], docs, cur, flat, bad, dim, r.id.value);
          docs, cur, flat, bad := Close(docs, cur, flat, bad), r.id, [], false;
        }
        if |r.token.value| != dim {
          Extend(rows[..i], docs, flat, bad, dim, r, []);
          assert flat + [] == flat;
          bad := true;
        } else {
          var more, ok := AppendToken(flat, r.token.value);
          Extend(rows[..i], docs, flat, bad, dim, r, more[|flat|..]);
          assert more == flat + more[|flat|..];
          flat := more;
          bad := bad || !ok;
        }
      }
    }
    assert rows[..|rows|] == rows;
    CloseGroups(rows, docs, cur, flat, bad, dim);
    docs := Close(docs, cur, flat, bad);
  }

  // ---------------------------------------------------------------- the fetch loop of stage 2

  /** A row the fetch loop looks at: a token of another length is skipped before anything else. */
  predicate RightRow(r: TokenRow, dim: nat) { Usable(r) && |r.token.value| == dim }

  predicate GoodOf(r: TokenRow, id: int, dim: nat) { Of(r, id) && Good(r, dim) }

  /** A token of the right length with a missing or non-finite element. */
  predicate BadOf(r: TokenRow, id: int, dim: nat) { Of(r, id) && |r.token.value| == dim && !Good(r, dim) }

  /** What the fetch loop has of a document: a bad token forgets the tokens before it. */
  function FetchFlat(rows: seq<TokenRow>, id: int, dim: nat): seq<int> {
    if rows == [] then [] else
      var had, r := FetchFlat(rows[..|rows| - 1], id, dim), rows[|rows| - 1];
      if GoodOf(r, id, dim) then had + Elements(r.token.value) else if BadOf(r, id, dim) then [] else had
  }

  /** The documents below `limit` the loop returns, in id order. */
  ghost predicate Fetched(docs: seq<Doc>, rows: seq<TokenRow>, dim: nat, limit: Option<int>) {
    && IdsIncrease(docs)
    && (forall i :: 0 <= i < |docs| ==>
          docs[i].flat == FetchFlat(rows, docs[i].id, dim) != [] && (limit.Some? ==> docs[i].id < limit.value))
    && (forall id :: FetchFlat(rows, id, dim) != [] && (limit.Some? ==> id < limit.value)
          ==> exists i :: 0 <= i < |docs| && docs[i].id == id)
  }

  lemma FetchPush(rows: seq<TokenRow>, r: TokenRow, id: int, dim: nat)
    ensures FetchFlat(rows + [r], id, dim)
         == if GoodOf(r, id, dim) then FetchFlat(rows, id, dim) + Elements(r.token.value)
            else if BadOf(r, id, dim) then [] else FetchFlat(rows, id, dim)
  {
    assert (rows + [r])[..|rows|] == rows;
  }

  lemma {:induction false} NothingFetched(rows: seq<TokenRow>, id: int, dim: nat)
    requires forall i :: 0 <= i < |rows| ==> !(RightRow(rows[i], dim) && Of(rows[i], id))
    ensures FetchFlat(rows, id, dim) == []
  {
    if rows != [] { NothingFetched(rows[..|rows| - 1], id, dim); }
  }

  ghost predicate Fetching(rows: seq<TokenRow>, docs: seq<Doc>, cur: Option<int>, flat: seq<int>, dim: nat) {
    && (forall i :: 0 <= i < |rows| && RightRow(rows[i], dim) ==> cur.Some? && rows[i].id.value <= cur.value)
    && (cur.None? ==> docs == [])
    && (cur.Some? ==> Fetched(docs, rows, dim, cur) && flat == FetchFlat(rows, cur.value, dim))
  }

  lemma NoneFetchedLater(rows: seq<TokenRow>, docs: seq<Doc>, cur: Option<int>, flat: seq<int>, dim: nat, id: int)
    requires Fetching(rows, docs, cur, flat, dim) && (cur.Some? ==> cur.value < id)
    ensures FetchFlat(rows, id, dim) == []
  {
    NothingFetched(rows, id, dim);
  }

  lemma CloseFetched(rows: seq<TokenRow>, docs: seq<Doc>, cur: Option<int>, flat: seq<int>, dim: nat)
    requires Fetching(rows, docs, cur, flat, dim)
    ensures Fetched(Close(docs, cur, flat, false), rows, dim, None)
  {
    var out := Close(docs, cur, flat, false);
    forall id | cur.None? || cur.value < id ensures FetchFlat(rows, id, dim) == [] {
      NoneFetchedLater(rows, docs, cur, flat, dim, id);
    }
    hide FetchFlat;
    forall id | FetchFlat(rows, id, dim) != [] ensures exists i :: 0 <= i < |out| && out[i].id == id {
      if id == cur.value {
        assert out[|docs|].id == id;
      } else {
        var i :| 0 <= i < |docs| && docs[i].id == id;
        assert out[i].id == id;
      }
    }
  }

  lemma TurnFetched(rows: seq<TokenRow>, docs: seq<Doc>, cur: Option<int>, flat: seq<int>, dim: nat, id: int)
    requires Fetching(rows, docs, cur, flat, dim) && (cur.Some? ==> cur.value < id)
    ensures Fetching(rows, Close(docs, cur, flat, false), Some(id), [], dim)
  {
    CloseFetched(rows, docs, cur, flat, dim);
    forall k | id <= k ensures FetchFlat(rows, k, dim) == [] { NoneFetchedLater(rows, docs, cur, flat, dim, k); }
    hide FetchFlat, Close;
  }

  lemma SkipFetched(rows: seq<TokenRow>, docs: seq<Doc>, cur: Option<int>, flat: seq<int>, dim: nat, r: TokenRow)
    requires !RightRow(r, dim) && Fetching(rows, docs, cur, flat, dim)
    ensures Fetching(rows + [r], docs, cur, flat, dim)
  {
    forall k: int ensures FetchFlat(rows + [r], k, dim) == FetchFlat(rows, k, dim) { FetchPush(rows, r, k, dim); }
    hide FetchFlat;
  }

  lemma ExtendFetched(rows: seq<TokenRow>, docs: seq<Doc>, flat: seq<int>, dim: nat, r: TokenRow, more: seq<int>)
    requires RightRow(r, dim) && Fetching(rows, docs, r.id, flat, dim)
    requires more == if Good(r, dim) then flat + Elements(r.token.value) else []
    ensures Fetching(rows + [r], docs, r.id, more, dim)
  {
    FetchPush(rows, r, r.id.value, dim);
    forall k: int | k != r.id.value
      ensures FetchFlat(rows + [r], k, dim) == FetchFlat(rows, k, dim)
    {
      FetchPush(rows, r, k, dim);
    }
    hide FetchFlat;
  }

  /** The loop of `fetch_doc_tokens`: the tokens of a document after its last bad one, for each document that
      has any. */
  method FetchDocTokens(rows: seq<TokenRow>, dim: nat) returns (docs: seq<Doc>)
    requires ByDoc(rows)
    ensures Fetched(docs, rows, dim, None)
  {
    docs := [];
    var cur: Option<int> := None;
    var flat: seq<int> := [];
    for i := 0 to |rows|
      invariant Fetching(rows[..i], docs, cur, flat, dim)
      invariant cur.Some? ==> exists j :: 0 <= j < i && Usable(rows[j]) && rows[j].id == cur
    {
      hide Fetching;
      var r := rows[i];
      assert rows[..i + 1] == rows[..i] + [r];
      if !RightRow(r, dim) {
        SkipFetched(rows[..i], docs, cur, flat, dim, r);
      } else {
        if cur != r.id {
          TurnFetched(rows[..i], docs, cur, flat, dim, r.id.value);
          docs, cur, flat := Close(docs, cur, flat, false), r.id, [];
        }
        var more, ok := AppendToken(flat, r.token.value);
        if !ok {
          more := [];
        }
        ExtendFetched(rows[..i], docs, flat, dim, r, more);
        flat := more;
      }
    }
    assert rows[..|rows|] == rows;
    CloseFetched(rows, docs, cur, flat, dim);
    docs := Close(docs, cur, flat, false);
  }

  /** A document is dropped exactly when every good token of it is followed by a bad one. */
  lemma {:induction false} DroppedIff(rows: seq<TokenRow>, id: int, dim: nat)
    requires dim > 0
    ensures FetchFlat(rows, id, dim) == [] <==>
            forall i :: 0 <= i < |rows| && GoodOf(rows[i], id, dim) ==>
              exists j :: i < j < |rows| && BadOf(rows[j], id, dim)
  {
    if rows != [] {
      var n := |rows| - 1;
      var init, r := rows[..n], rows[n];
      DroppedIff(init, id, dim);
      assert forall i :: 0 <= i < n ==> init[i] == rows[i];
      hide Good;
      if GoodOf(r, id, dim) {
        assert |Elements(r.token.value)| == dim;
      } else if !BadOf(r, id, dim) {
        forall i | 0 <= i < n && GoodOf(rows[i], id, dim)
          ensures (exists j :: i < j < n && BadOf(init[j], id, dim)) <==>
                  (exists j :: i < j < |rows| && BadOf(rows[j], id, dim))
        {
          if exists j :: i < j < n && BadOf(init[j], id, dim) {
            var j :| i < j < n && BadOf(init[j], id, dim);
            assert BadOf(rows[j], id, dim);
          }
          if exists j :: i < j < |rows| && BadOf(rows[j], id, dim) {
            var j :| i < j < |rows| && BadOf(rows[j], id, dim);
            assert BadOf(init[j], id, dim);
          }
        }
      }
    }
  }

  predicate HasBad(rows: seq<TokenRow>, id: int, dim: nat) {
    exists i :: 0 <= i < |rows| && BadOf(rows[i], id, dim)
  }

  /** Some good token comes after the document's last bad one. */
  predicate GoodAfterBad(rows: seq<TokenRow>, id: int, dim: nat) {
    exists i :: 0 <= i < |rows| && GoodOf(rows[i], id, dim) && forall j :: i < j < |rows| ==> !BadOf(rows[j], id, dim)
  }

  /** That a bad token drops its whole document holds of some rows exactly unless a good token follows the
      last bad one. */
  lemma BadTokenDropsIff(rows: seq<TokenRow>, id: int, dim: nat)
    requires dim > 0
    ensures (HasBad(rows, id, dim) ==> FetchFlat(rows, id, dim) == [])
       <==> !(HasBad(rows, id, dim) && GoodAfterBad(rows, id, dim))
  {
    DroppedIff(rows, id, dim);
  }

  /** The failing case: a bad token of 8 elements and then a good one; the document comes back with the
      second token. */
  method BadTokenKept() returns (docs: seq<Doc>)
    ensures docs == [Doc(1, [5, 5, 5, 5, 5, 5, 5, 5])]
  {
    var bad, good := TokenRow(Some(1), Some(seq(8, _ => None))), TokenRow(Some(1), Some(seq(8, _ => Some(5))));
    var rows := [bad, good];
    docs := FetchDocTokens(rows, 8);
    assert bad.token.value[0].None? && Of(bad, 1) && Of(good, 1);
    OneTokenKept(bad, good);
    forall id | id != 1 ensures FetchFlat(rows, id, 8) == [] { NothingFetched(rows, id, 8); }
    hide FetchFlat;
    assert Elements(good.token.value) == [5, 5, 5, 5, 5, 5, 5, 5];
    assert forall i :: 0 <= i < |docs| ==> docs[i].id == 1;
    var i :| 0 <= i < |docs| && docs[i].id == 1;
    assert docs[0].id == docs[|docs| - 1].id;
    assert docs == [docs[0]];
  }

  lemma OneTokenKept(bad: TokenRow, good: TokenRow)
    requires BadOf(bad, 1, 8) && GoodOf(good, 1, 8)
    ensures FetchFlat([bad, good], 1, 8) == Elements(good.token.value)
  {
    assert [bad, good][..1] == [bad] && [bad][..0] == [];
    assert FetchFlat([bad], 1, 8) == [];
  }

  /** On a document whose tokens are all good the two loops agree. */
  lemma {:induction false} GoodDocsAgree(rows: seq<TokenRow>, id: int, dim: nat)
    requires AllGood(rows, id, dim)
    ensures FetchFlat(rows, id, dim) == Flat(rows, id, dim)
  {
    if rows != [] {
      var init, r := rows[..|rows| - 1], rows[|rows| - 1];
      assert rows == init + [r];
      assert forall i :: 0 <= i < |init| ==> init[i] == rows[i];
      GoodDocsAgree(init, id, dim);
    }
  }

  /** Whatever is left of a document is whole tokens. */
  lemma {:induction false} FetchedLength(rows: seq<TokenRow>, id: int, dim: nat)
    ensures FetchFlat(rows, id, dim) != [] ==> |FetchFlat(rows, id, dim)| >= dim
  {
    if rows != [] {
      var init, r := rows[..|rows| - 1], rows[|rows| - 1];
      FetchedLength(init, id, dim);
      if GoodOf(r, id, dim) { assert |Elements(r.token.value)| == dim; }
    }
  }

  lemma FirstIn(a: seq<Doc>)
    ensures a != [] ==> a[0] in a
  {
  }

  lemma FirstIsLeast(a: seq<Doc>, d: Doc)
    requires IdsIncrease(a) && d in a
    ensures a[0].id <= d.id && (a[0].id == d.id ==> a[0] == d)
  {
    var j :| 0 <= j < |a| && a[j] == d;
  }

  /** Two lists in id order with the same documents are the same list. */
  lemma SameDocs(a: seq<Doc>, b: seq<Doc>)
    requires IdsIncrease(a) && IdsIncrease(b) && forall d :: d in a <==> d in b
    ensures a == b
  {
    FirstIn(a);
    FirstIn(b);
    if a != [] && b != [] {
      FirstIsLeast(a, b[0]);
      FirstIsLeast(b, a[0]);
      forall d ensures d in a[1..] <==> d in b[1..] {
        WithoutFirst(a, d);
        WithoutFirst(b, d);
      }
      SameDocs(a[1..], b[1..]);
      assert a == [a[0]] + a[1..] && b == [b[0]] + b[1..];
    }
  }

  lemma WithoutFirst(a: seq<Doc>, d: Doc)
    requires IdsIncrease(a) && a != []
    ensures d in a[1..] <==> d in a && d != a[0]
  {
    assert a == [a[0]] + a[1..];
    forall k | 0 <= k < |a[1..]| ensures a[1..][k] != a[0] { assert a[0].id < a[k + 1].id; }
  }
}
