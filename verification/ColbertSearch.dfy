/** The two search stages over grouped documents: token search, union by best score, cap, exact MaxSim. */
module ColbertSearch {
  import opened Collections
  import opened Options
  import opened Slots
  import opened Topk
  import opened Candidates
  import opened Colbert

  /** A query or document token, already normalised if that is configured. */
  type Token = seq<int>

  /** A document with at least one token. */
  datatype Stored = Stored(id: int, tokens: seq<Token>)

  datatype TokenHit = TokenHit(doc: int, score: int)

  // ---------------------------------------------------------------- exact MaxSim

  /** The best similarity of `q` among the first `n` tokens. */
  function BestSim(sim: (Token, Token) -> int, q: Token, tokens: seq<Token>, n: nat): Option<int>
    requires n <= |tokens|
  {
    if n == 0 then None else
      var s := sim(q, tokens[n - 1]);
      match BestSim(sim, q, tokens, n - 1)
      case None => Some(s)
      case Some(best) => Some(if s > best then s else best)
  }

  function MaxSim(sim: (Token, Token) -> int, query: seq<Token>, tokens: seq<Token>): int {
    if query == [] then 0 else
      var best := BestSim(sim, query[|query| - 1], tokens, |tokens|);
      MaxSim(sim, query[..|query| - 1], tokens) + if best.Some? then best.value else 0
  }

  /** `BestSim` is the maximum: some token reaches it and none exceeds it. */
  lemma {:induction false} BestSimIsMax(sim: (Token, Token) -> int, q: Token, tokens: seq<Token>, n: nat)
    requires n <= |tokens|
    ensures BestSim(sim, q, tokens, n).Some? <==> n > 0
    ensures n > 0 ==> (exists t :: 0 <= t < n && sim(q, tokens[t]) == BestSim(sim, q, tokens, n).value)
                      && forall t :: 0 <= t < n ==> sim(q, tokens[t]) <= BestSim(sim, q, tokens, n).value
  {
    if n > 0 { BestSimIsMax(sim, q, tokens, n - 1); }
  }

  function SumOf(s: seq<int>): int {
    if s == [] then 0 else SumOf(s[..|s| - 1]) + s[|s| - 1]
  }

  /** `best` is the largest similarity of `q` to any of the tokens. */
  predicate IsBestSim(sim: (Token, Token) -> int, q: Token, tokens: seq<Token>, best: int) {
    && (exists t :: 0 <= t < |tokens| && sim(q, tokens[t]) == best)
    && (forall t :: 0 <= t < |tokens| ==> sim(q, tokens[t]) <= best)
  }

  /** The score of a document adds up, over all query tokens, the largest similarity to any of its tokens. */
  lemma {:induction false} MaxSimIsSum(sim: (Token, Token) -> int, query: seq<Token>, tokens: seq<Token>)
    returns (bests: seq<int>)
    requires tokens != []
    ensures |bests| == |query| && MaxSim(sim, query, tokens) == SumOf(bests)
    ensures forall i :: 0 <= i < |query| ==> IsBestSim(sim, query[i], tokens, bests[i])
  {
    if query == [] {
      bests := [];
    } else {
      var init, q := query[..|query| - 1], query[|query| - 1];
      var more := MaxSimIsSum(sim, init, tokens);
      BestSimIsMax(sim, q, tokens, |tokens|);
      bests := more + [BestSim(sim, q, tokens, |tokens|).value];
      assert bests[..|bests| - 1] == more;
    }
  }

  method MaxSimDot(sim: (Token, Token) -> int, query: seq<Token>, tokens: seq<Token>) returns (total: int)
    ensures total == MaxSim(sim, query, tokens)
  {
    total := 0;
    for i := 0 to |query|
      invariant total == MaxSim(sim, query[..i], tokens)
    {
      var best: Option<int> := None;
      for t := 0 to |tokens|
        invariant best == BestSim(sim, query[i], tokens, t)
      {
        var s := sim(query[i], tokens[t]);
        if best.None? || s > best.value {
          best := Some(s);
        }
      }
      assert query[..i + 1][..i] == query[..i];
      if best.Some? {
        total := total + best.value;
      }
    }
    assert query[..|query|] == query;
  }

  // ---------------------------------------------------------------- union by best token score

  function Best(hits: seq<TokenHit>): map<int, int> {
    if hits == [] then map[] else
      var m, h := Best(hits[..|hits| - 1]), hits[|hits| - 1];
      if h.doc in m && m[h.doc] >= h.score then m else m[h.doc := h.score]
  }

  /** Every document hit, with the largest of its scores. */
  lemma {:induction false} BestIsMax(hits: seq<TokenHit>, d: int)
    ensures d in Best(hits) <==> exists i :: 0 <= i < |hits| && hits[i].doc == d
    ensures d in Best(hits) ==> TokenHit(d, Best(hits)[d]) in hits
    ensures forall i :: 0 <= i < |hits| && hits[i].doc == d ==> d in Best(hits) && hits[i].score <= Best(hits)[d]
  {
    if hits != [] {
      var init, h := hits[..|hits| - 1], hits[|hits| - 1];
      BestIsMax(init, d);
      assert hits == init + [h];
      assert forall i :: 0 <= i < |init| ==> hits[i] == init[i];
    }
  }

  method UnionBest(hits: seq<TokenHit>) returns (best: map<int, int>)
    ensures best == Best(hits)
  {
    best := map[];
    for i := 0 to |hits|
      invariant best == Best(hits[..i])
    {
      assert hits[..i + 1][..i] == hits[..i];
      var h := hits[i];
      if h.doc in best {
        if h.score > best[h.doc] {
          best := best[h.doc := h.score];
        }
      } else {
        best := best[h.doc := h.score];
      }
    }
    assert hits[..|hits|] == hits;
  }

  /** The entries of the hash map in some order. */
  ghost predicate Lists(items: seq<Hit>, best: map<int, int>) {
    Distinct(items) && forall h: Hit :: h in items <==> h.slot in best && best[h.slot] == h.score
  }

  lemma SomeKey(keys: set<int>)
    requires keys != {}
    ensures exists d :: d in keys
  {
    assert (forall d :: d !in keys) ==> keys == {};
  }

  method IntoItems(best: map<int, int>) returns (items: seq<Hit>)
    ensures Lists(items, best)
  {
    items := [];
    var rest: set<int> := best.Keys;
    while rest != {}
      invariant rest <= best.Keys && Distinct(items)
      invariant forall h: Hit :: h in items <==> h.slot in best && h.slot !in rest && best[h.slot] == h.score
      decreases rest
    {
      SomeKey(rest);
      var d :| d in rest;
      items := items + [Hit(best[d], d)];
      rest := rest - {d};
    }
  }

  /** Whatever order the map is read in, the capped candidates are the same. */
  lemma CapUnordered(a: seq<Hit>, b: seq<Hit>, best: map<int, int>, n: nat)
    requires Lists(a, best) && Lists(b, best)
    ensures TopK(a, n) == TopK(b, n)
  {
    SameElements(a, b);
    TopKPermuted(a, b, n);
  }

  /** The candidate documents, best first: at most `n`, score descending, then id ascending. */
  ghost predicate IsCapped(docs: seq<Hit>, best: map<int, int>, n: nat) {
    exists items :: Lists(items, best) && docs == TopK(items, n)
  }

  method CapCandidates(hits: seq<TokenHit>, n: nat) returns (docs: seq<Hit>)
    ensures IsCapped(docs, Best(hits), n)
  {
    var best := UnionBest(hits);
    var items := IntoItems(best);
    docs := Sorted(items);
    docs := if |docs| < n then docs else docs[..n];
    assert docs == TopK(items, n);
  }

  // ---------------------------------------------------------------- stage 1

  /** Which document each token slot belongs to. */
  function SlotDocs(docs: seq<Stored>): seq<int> {
    if docs == [] then [] else
      var d := docs[|docs| - 1];
      SlotDocs(docs[..|docs| - 1]) + seq(|d.tokens|, _ => d.id)
  }

  /** A document owns a slot when it has a token. */
  lemma {:induction false} SlotDocsMember(docs: seq<Stored>, x: int)
    ensures x in SlotDocs(docs) <==> exists i :: 0 <= i < |docs| && docs[i].id == x && docs[i].tokens != []
  {
    if docs != [] {
      var init, d := docs[..|docs| - 1], docs[|docs| - 1];
      SlotDocsMember(init, x);
      var own := seq(|d.tokens|, _ => d.id);
      assert x in own <==> x == d.id && d.tokens != [] by {
        if d.tokens != [] { assert own[0] == d.id; }
      }
      assert forall i :: 0 <= i < |init| ==> docs[i] == init[i];
    }
  }

  function TokenCount(docs: seq<Stored>): nat {
    if docs == [] then 0 else TokenCount(docs[..|docs| - 1]) + |docs[|docs| - 1].tokens|
  }

  /** Slots number the tokens document by document: a slot belongs to the document whose token it numbers. */
  lemma {:induction false} SlotOwner(docs: seq<Stored>, i: nat, t: nat)
    requires i < |docs| && t < |docs[i].tokens|
    ensures |SlotDocs(docs)| == TokenCount(docs)
    ensures var s := TokenCount(docs[..i]) + t; s < |SlotDocs(docs)| && SlotDocs(docs)[s] == docs[i].id
  {
    var n := |docs| - 1;
    SlotCount(docs);
    SlotCount(docs[..n]);
    if i < n {
      SlotOwner(docs[..n], i, t);
      assert docs[..n][..i] == docs[..i];
    }
  }

  lemma {:induction false} SlotCount(docs: seq<Stored>)
    ensures |SlotDocs(docs)| == TokenCount(docs)
  {
    if docs != [] { SlotCount(docs[..|docs| - 1]); }
  }

  /** The approximate search: `take` slots for one query token. */
  type Ann = (Token, nat) -> seq<Hit>

  predicate Finds(found: seq<Hit>, s: int) {
    exists i :: 0 <= i < |found| && found[i].slot == s
  }

  /** Asked for every slot, it returns every slot. */
  ghost predicate CoversAll(ann: Ann, slots: nat) {
    forall q, s :: 0 <= s < slots ==> Finds(ann(q, slots), s)
  }

  function HitsOf(found: seq<Hit>, slotDoc: seq<int>): seq<TokenHit> {
    if found == [] then [] else
      var h := found[|found| - 1];
      HitsOf(found[..|found| - 1], slotDoc) +
      if 0 <= h.slot < |slotDoc| then [TokenHit(slotDoc[h.slot], h.score)] else []
  }

  function AllHits(ann: Ann, slotDoc: seq<int>, query: seq<Token>, take: nat): seq<TokenHit> {
    if query == [] then [] else
      AllHits(ann, slotDoc, query[..|query| - 1], take) + HitsOf(ann(query[|query| - 1], take), slotDoc)
  }

  /** One search per query token; a slot past the document table is skipped. */
  method SearchTokens(ann: Ann, slotDoc: seq<int>, query: seq<Token>, perTokenK: nat) returns (hits: seq<TokenHit>)
    ensures var take := if perTokenK < |slotDoc| then perTokenK else |slotDoc|;
            hits == if take == 0 then [] else AllHits(ann, slotDoc, query, take)
  {
    var take := if perTokenK < |slotDoc| then perTokenK else |slotDoc|;
    hits := [];
    if take == 0 {
      return;
    }
    for i := 0 to |query|
      invariant hits == AllHits(ann, slotDoc, query[..i], take)
    {
      assert query[..i + 1][..i] == query[..i];
      var found := ann(query[i], take);
      ghost var before := hits;
      for j := 0 to |found|
        invariant hits == before + HitsOf(found[..j], slotDoc)
      {
        assert found[..j + 1][..j] == found[..j];
        var h := found[j];
        if 0 <= h.slot < |slotDoc| {
          hits := hits + [TokenHit(slotDoc[h.slot], h.score)];
        }
      }
      assert found[..|found|] == found;
    }
    assert query[..|query|] == query;
  }

  predicate HitsDoc(hits: seq<TokenHit>, d: int) {
    exists i :: 0 <= i < |hits| && hits[i].doc == d
  }

  lemma HitsDocJoin(a: seq<TokenHit>, b: seq<TokenHit>, d: int)
    ensures HitsDoc(a + b, d) <==> HitsDoc(a, d) || HitsDoc(b, d)
  {
    var c := a + b;
    assert forall i :: 0 <= i < |a| ==> c[i] == a[i];
    assert forall i :: 0 <= i < |b| ==> c[|a| + i] == b[i];
    assert forall i :: |a| <= i < |c| ==> c[i] == b[i - |a|];
  }

  lemma {:induction false} FoundIsHit(found: seq<Hit>, slotDoc: seq<int>, j: nat)
    requires j < |found| && 0 <= found[j].slot < |slotDoc|
    ensures HitsDoc(HitsOf(found, slotDoc), slotDoc[found[j].slot])
  {
    var n := |found| - 1;
    var last := if 0 <= found[n].slot < |slotDoc| then [TokenHit(slotDoc[found[n].slot], found[n].score)] else [];
    if j < n { FoundIsHit(found[..n], slotDoc, j); } else { assert last[0].doc == slotDoc[found[j].slot]; }
    HitsDocJoin(HitsOf(found[..n], slotDoc), last, slotDoc[found[j].slot]);
  }

  lemma {:induction false} HitsAreDocs(found: seq<Hit>, slotDoc: seq<int>, d: int)
    requires HitsDoc(HitsOf(found, slotDoc), d)
    ensures d in slotDoc
  {
    var n := |found| - 1;
    var last := if 0 <= found[n].slot < |slotDoc| then [TokenHit(slotDoc[found[n].slot], found[n].score)] else [];
    HitsDocJoin(HitsOf(found[..n], slotDoc), last, d);
    if HitsDoc(HitsOf(found[..n], slotDoc), d) { HitsAreDocs(found[..n], slotDoc, d); }
  }

  lemma {:induction false} AllHitsAreDocs(ann: Ann, slotDoc: seq<int>, query: seq<Token>, take: nat, d: int)
    requires HitsDoc(AllHits(ann, slotDoc, query, take), d)
    ensures d in slotDoc
  {
    var init, q := query[..|query| - 1], query[|query| - 1];
    HitsDocJoin(AllHits(ann, slotDoc, init, take), HitsOf(ann(q, take), slotDoc), d);
    if HitsDoc(AllHits(ann, slotDoc, init, take), d) {
      AllHitsAreDocs(ann, slotDoc, init, take, d);
    } else {
      HitsAreDocs(ann(q, take), slotDoc, d);
    }
  }

  /** A token search found the document with this score. */
  predicate FoundFor(found: seq<Hit>, slotDoc: seq<int>, hit: TokenHit) {
    exists j :: 0 <= j < |found| && 0 <= found[j].slot < |slotDoc|
                && slotDoc[found[j].slot] == hit.doc && found[j].score == hit.score
  }

  lemma {:induction false} HitsOfMember(found: seq<Hit>, slotDoc: seq<int>, hit: TokenHit)
    ensures hit in HitsOf(found, slotDoc) <==> FoundFor(found, slotDoc, hit)
  {
    if found != [] {
      var n := |found| - 1;
      HitsOfMember(found[..n], slotDoc, hit);
      assert forall j :: 0 <= j < n ==> found[..n][j] == found[j];
      var last := if 0 <= found[n].slot < |slotDoc| then [TokenHit(slotDoc[found[n].slot], found[n].score)] else [];
      assert HitsOf(found, slotDoc) == HitsOf(found[..n], slotDoc) + last;
      if FoundFor(found, slotDoc, hit) && !FoundFor(found[..n], slotDoc, hit) { assert hit in last; }
    }
  }

  /** The hits are, over all query tokens, the documents of the slots found, each with the score found. */
  lemma {:induction false} AllHitsMember(ann: Ann, slotDoc: seq<int>, query: seq<Token>, take: nat, hit: TokenHit)
    ensures hit in AllHits(ann, slotDoc, query, take) <==>
            exists i :: 0 <= i < |query| && FoundFor(ann(query[i], take), slotDoc, hit)
  {
    hide FoundFor;
    if query != [] {
      var n := |query| - 1;
      AllHitsMember(ann, slotDoc, query[..n], take, hit);
      HitsOfMember(ann(query[n], take), slotDoc, hit);
      assert forall i :: 0 <= i < n ==> query[..n][i] == query[i];
    }
  }

  /** With every slot returned, every document with a token is hit, and no other. */
  lemma FullCover(ann: Ann, docs: seq<Stored>, query: seq<Token>, d: int)
    requires query != [] && CoversAll(ann, |SlotDocs(docs)|)
    ensures HitsDoc(AllHits(ann, SlotDocs(docs), query, |SlotDocs(docs)|), d) <==> d in SlotDocs(docs)
  {
    var slotDoc := SlotDocs(docs);
    var hits := AllHits(ann, slotDoc, query, |slotDoc|);
    if HitsDoc(hits, d) { AllHitsAreDocs(ann, slotDoc, query, |slotDoc|, d); }
    if d in slotDoc {
      var s: nat :| s < |slotDoc| && slotDoc[s] == d;
      var init, q := query[..|query| - 1], query[|query| - 1];
      var found := ann(q, |slotDoc|);
      assert Finds(found, s);
      var j :| 0 <= j < |found| && found[j].slot == s;
      FoundIsHit(found, slotDoc, j);
      HitsDocJoin(AllHits(ann, slotDoc, init, |slotDoc|), HitsOf(found, slotDoc), d);
    }
  }

  // ---------------------------------------------------------------- stage 2

  predicate Selected(cands: seq<Hit>, id: int) {
    exists i :: 0 <= i < |cands| && cands[i].slot == id
  }

  /** The exact scores of the candidate documents, in heap order. */
  function Rescored(docs: seq<Stored>, cands: seq<Hit>, sim: (Token, Token) -> int, query: seq<Token>): seq<Hit> {
    if docs == [] then [] else
      var d := docs[|docs| - 1];
      Rescored(docs[..|docs| - 1], cands, sim, query)
        + if d.tokens != [] && Selected(cands, d.id) then [Hit(MaxSim(sim, query, d.tokens), d.id)] else []
  }

  /** The exact scores of all documents with a token. */
  function AllScored(docs: seq<Stored>, sim: (Token, Token) -> int, query: seq<Token>): seq<Hit> {
    if docs == [] then [] else
      var d := docs[|docs| - 1];
      AllScored(docs[..|docs| - 1], sim, query) +
      if d.tokens != [] then [Hit(MaxSim(sim, query, d.tokens), d.id)] else []
  }

  /** What is ranked: the candidate documents that have a token, each with its exact score. */
  lemma {:induction false} RescoredMember(docs: seq<Stored>, cands: seq<Hit>, sim: (Token, Token) -> int,
      query: seq<Token>, h: Hit)
    ensures h in Rescored(docs, cands, sim, query) <==>
            exists i :: 0 <= i < |docs| && docs[i].tokens != [] && Selected(cands, docs[i].id)
                        && h == Hit(MaxSim(sim, query, docs[i].tokens), docs[i].id)
  {
    hide MaxSim, Selected;
    if docs != [] {
      var n := |docs| - 1;
      var init := docs[..n];
      RescoredMember(init, cands, sim, query, h);
      var here := if docs[n].tokens != [] && Selected(cands, docs[n].id)
                  then [Hit(MaxSim(sim, query, docs[n].tokens), docs[n].id)] else [];
      assert h in Rescored(docs, cands, sim, query) <==> h in Rescored(init, cands, sim, query) || h in here;
      hide Rescored;
      assert forall i :: 0 <= i < n ==> init[i] == docs[i];
    }
  }

  lemma CappedUnique(a: seq<Hit>, b: seq<Hit>, best: map<int, int>, n: nat)
    requires IsCapped(a, best, n) && IsCapped(b, best, n)
    ensures a == b
  {
    var s :| Lists(s, best) && a == TopK(s, n);
    var t :| Lists(t, best) && b == TopK(t, n);
    CapUnordered(s, t, best, n);
  }

  lemma {:induction false} RescoredAll(docs: seq<Stored>, cands: seq<Hit>, sim: (Token, Token) -> int,
      query: seq<Token>)
    requires forall i :: 0 <= i < |docs| && docs[i].tokens != [] ==> Selected(cands, docs[i].id)
    ensures Rescored(docs, cands, sim, query) == AllScored(docs, sim, query)
  {
    if docs != [] { RescoredAll(docs[..|docs| - 1], cands, sim, query); }
  }

  /** The cap keeps every document when it is at least their number. */
  lemma CapKeepsAll(cands: seq<Hit>, best: map<int, int>, n: nat, d: int)
    requires IsCapped(cands, best, n) && |best| <= n && d in best
    ensures Selected(cands, d)
  {
    var items :| Lists(items, best) && cands == TopK(items, n);
    ItemsCount(items, best);
    SortedMultiset(items);
    var h := Hit(best[d], d);
    assert h in items;
    assert h in multiset(Sorted(items));
    var i :| 0 <= i < |Sorted(items)| && Sorted(items)[i] == h;
    assert cands[i].slot == d;
  }

  lemma {:induction false} ItemsCount(items: seq<Hit>, best: map<int, int>)
    requires Lists(items, best)
    ensures |items| == |best|
  {
    var keys := set h | h in items :: h.slot;
    assert keys == best.Keys by {
      forall d | d in best ensures d in keys { assert Hit(best[d], d) in items; }
    }
    SlotsCount(items);
    assert |best| == |best.Keys|;
  }

  lemma {:induction false} SlotsCount(items: seq<Hit>)
    requires forall i, j :: 0 <= i < j < |items| ==> items[i].slot != items[j].slot
    ensures |set h | h in items :: h.slot| == |items|
  {
    if items != [] {
      var init, last := items[..|items| - 1], items[|items| - 1];
      SlotsCount(init);
      assert items == init + [last];
      assert (set h | h in items :: h.slot) == (set h | h in init :: h.slot) + {last.slot};
    }
  }

  // ---------------------------------------------------------------- both stages

  lemma BestKeys(hits: seq<TokenHit>, d: int)
    ensures d in Best(hits) <==> HitsDoc(hits, d)
  {
    BestIsMax(hits, d);
  }

  lemma {:induction false} FewerKeysThanDocs(best: map<int, int>, docs: seq<Stored>)
    requires forall d :: d in best ==> exists i :: 0 <= i < |docs| && docs[i].id == d
    ensures |best| <= |docs|
  {
    if docs == [] {
      assert forall d :: d !in best;
      assert best == map[];
    } else {
      var init, id := docs[..|docs| - 1], docs[|docs| - 1].id;
      var less := best - {id};
      forall d | d in less ensures exists i :: 0 <= i < |init| && init[i].id == d {
        var i :| 0 <= i < |docs| && docs[i].id == d;
        assert init[i].id == d;
      }
      FewerKeysThanDocs(less, init);
      assert best.Keys <= less.Keys + {id};
      assert |best.Keys| <= |less.Keys + {id}| by { SubsetSize(best.Keys, less.Keys + {id}); }
    }
  }

  lemma EveryDocSelected(ann: Ann, docs: seq<Stored>, query: seq<Token>, cands: seq<Hit>, n: nat, i: nat)
    requires query != [] && CoversAll(ann, |SlotDocs(docs)|) && |docs| <= n && i < |docs| && docs[i].tokens != []
    requires IsCapped(cands, Best(AllHits(ann, SlotDocs(docs), query, |SlotDocs(docs)|)), n)
    ensures Selected(cands, docs[i].id)
  {
    var slotDoc := SlotDocs(docs);
    var hits := AllHits(ann, slotDoc, query, |slotDoc|);
    forall d | d in Best(hits) ensures exists j :: 0 <= j < |docs| && docs[j].id == d {
      BestKeys(hits, d);
      FullCover(ann, docs, query, d);
      SlotDocsMember(docs, d);
    }
    FewerKeysThanDocs(Best(hits), docs);
    SlotDocsMember(docs, docs[i].id);
    FullCover(ann, docs, query, docs[i].id);
    BestKeys(hits, docs[i].id);
    CapKeepsAll(cands, Best(hits), n, docs[i].id);
  }

  // ---------------------------------------------------------------- from token rows to documents

  /** A document's flat buffer cut into tokens. */
  function Chunks(flat: seq<int>, dim: nat): seq<Token>
    requires dim > 0
  {
    if |flat| < dim then [] else [flat[..dim]] + Chunks(flat[dim..], dim)
  }

  /** The good tokens of a document, in row order. */
  function GoodTokens(rows: seq<TokenRow>, id: int, dim: nat): seq<Token> {
    if rows == [] then [] else
      var r := rows[|rows| - 1];
      GoodTokens(rows[..|rows| - 1], id, dim) + if Of(r, id) && Good(r, dim) then [Elements(r.token.value)] else []
  }

  lemma {:induction false} ChunksPush(flat: seq<int>, dim: nat, n: nat, token: Token)
    requires dim > 0 && |token| == dim && |flat| == Offset(dim, n)
    ensures Chunks(flat + token, dim) == Chunks(flat, dim) + [token]
    decreases n
  {
    if n == 0 {
      assert flat + token == token && token[..dim] == token && token[dim..] == [];
      assert Chunks([], dim) == [] && Chunks(token, dim) == [token] + Chunks([], dim);
    } else {
      ChunksPush(flat[dim..], dim, n - 1, token);
      assert (flat + token)[..dim] == flat[..dim] && (flat + token)[dim..] == flat[dim..] + token;
    }
  }

  lemma GoodPush(rows: seq<TokenRow>, r: TokenRow, id: int, dim: nat)
    requires dim > 0 && Of(r, id) && Good(r, dim)
    requires |Flat(rows, id, dim)| == Offset(dim, |GoodTokens(rows, id, dim)|)
    requires Chunks(Flat(rows, id, dim), dim) == GoodTokens(rows, id, dim)
    ensures GoodTokens(rows + [r], id, dim) == GoodTokens(rows, id, dim) + [Elements(r.token.value)]
    ensures Flat(rows + [r], id, dim) == Flat(rows, id, dim) + Elements(r.token.value)
    ensures |Flat(rows + [r], id, dim)| == Offset(dim, |GoodTokens(rows + [r], id, dim)|)
    ensures Chunks(Flat(rows + [r], id, dim), dim) == GoodTokens(rows + [r], id, dim)
  {
    assert (rows + [r])[..|rows|] == rows;
    assert |Elements(r.token.value)| == dim;
    hide Good, Chunks;
    ChunksPush(Flat(rows, id, dim), dim, |GoodTokens(rows, id, dim)|, Elements(r.token.value));
  }

  /** Cutting the flat tokens of a document up again gives its good tokens, each whole and in order. */
  lemma {:induction false} ChunksAreTokens(rows: seq<TokenRow>, id: int, dim: nat)
    requires dim > 0
    ensures |Flat(rows, id, dim)| == Offset(dim, |GoodTokens(rows, id, dim)|)
    ensures Chunks(Flat(rows, id, dim), dim) == GoodTokens(rows, id, dim)
  {
    if rows == [] {
      assert Chunks([], dim) == [];
    } else {
      var init, r := rows[..|rows| - 1], rows[|rows| - 1];
      ChunksAreTokens(init, id, dim);
      hide Good, Chunks;
      assert rows == init + [r];
      if Of(r, id) && Good(r, dim) {
        GoodPush(init, r, id, dim);
      } else {
        assert Flat(rows, id, dim) == Flat(init, id, dim) && GoodTokens(rows, id, dim) == GoodTokens(init, id, dim);
      }
    }
  }

  function StoredOf(docs: seq<Doc>, dim: nat): (r: seq<Stored>)
    requires dim > 0
    ensures |r| == |docs| && forall i :: 0 <= i < |docs| ==> r[i] == Stored(docs[i].id, Chunks(docs[i].flat, dim))
  {
    seq(|docs|, i requires 0 <= i < |docs| => Stored(docs[i].id, Chunks(docs[i].flat, dim)))
  }

  /** The rows the second query returns: those of the candidate documents. */
  function SelectRows(rows: seq<TokenRow>, cands: seq<Hit>): seq<TokenRow> {
    if rows == [] then [] else
      var r := rows[|rows| - 1];
      SelectRows(rows[..|rows| - 1], cands) + if Usable(r) && Selected(cands, r.id.value) then [r] else []
  }

  lemma {:induction false} SelectedRows(rows: seq<TokenRow>, cands: seq<Hit>, r: TokenRow)
    ensures r in SelectRows(rows, cands) <==> r in rows && Usable(r) && Selected(cands, r.id.value)
  {
    if rows != [] {
      SelectedRows(rows[..|rows| - 1], cands, r);
      assert rows == rows[..|rows| - 1] + [rows[|rows| - 1]];
    }
  }

  lemma {:induction false} SelectByDoc(rows: seq<TokenRow>, cands: seq<Hit>)
    requires ByDoc(rows)
    ensures ByDoc(SelectRows(rows, cands))
  {
    if rows != [] {
      var init, r := rows[..|rows| - 1], rows[|rows| - 1];
      SelectByDoc(init, cands);
      var a := SelectRows(init, cands);
      forall i | 0 <= i < |a| && Usable(a[i]) && Usable(r) ensures a[i].id.value <= r.id.value {
        SelectedRows(init, cands, a[i]);
        var j :| 0 <= j < |init| && init[j] == a[i];
        assert rows[j] == a[i];
      }
      hide Usable;
    }
  }

  /** Selecting rows of whole documents changes nothing for those documents and hides all others. */
  lemma {:induction false} SelectedFlat(rows: seq<TokenRow>, cands: seq<Hit>, id: int, dim: nat)
    ensures FetchFlat(SelectRows(rows, cands), id, dim) == if Selected(cands, id) then FetchFlat(rows, id, dim) else []
  {
    if rows != [] {
      var init, r := rows[..|rows| - 1], rows[|rows| - 1];
      SelectedFlat(init, cands, id, dim);
      FetchPush(SelectRows(init, cands), r, id, dim);
      FetchPush(init, r, id, dim);
      assert rows == init + [r];
      hide Good, Selected;
      assert SelectRows(init, cands) + [] == SelectRows(init, cands);
    }
  }

  function SelectDocs(docs: seq<Doc>, cands: seq<Hit>): seq<Doc> {
    if docs == [] then [] else
      var d := docs[|docs| - 1];
      SelectDocs(docs[..|docs| - 1], cands) + if Selected(cands, d.id) then [d] else []
  }

  lemma {:induction false} SelectedDocs(docs: seq<Doc>, cands: seq<Hit>, d: Doc)
    ensures d in SelectDocs(docs, cands) <==> d in docs && Selected(cands, d.id)
  {
    if docs != [] {
      SelectedDocs(docs[..|docs| - 1], cands, d);
      assert docs == docs[..|docs| - 1] + [docs[|docs| - 1]];
    }
  }

  lemma {:induction false} SelectIncreases(docs: seq<Doc>, cands: seq<Hit>)
    requires IdsIncrease(docs)
    ensures IdsIncrease(SelectDocs(docs, cands))
  {
    if docs != [] {
      var init, d := docs[..|docs| - 1], docs[|docs| - 1];
      SelectIncreases(init, cands);
      var a := SelectDocs(init, cands);
      forall i | 0 <= i < |a| ensures a[i].id < d.id {
        SelectedDocs(init, cands, a[i]);
        var j :| 0 <= j < |init| && init[j] == a[i];
        assert docs[j] == a[i];
      }
    }
  }

  /** Every candidate is a document the build collected. */
  ghost predicate FromDocs(cands: seq<Hit>, docs: seq<Doc>) {
    forall id :: Selected(cands, id) ==> exists i :: 0 <= i < |docs| && docs[i].id == id
  }

  lemma FetchedMember(rows: seq<TokenRow>, dim: nat, docs: seq<Doc>, cands: seq<Hit>, fetched: seq<Doc>, d: Doc)
    requires Grouped(docs, rows, dim, None) && FromDocs(cands, docs)
             && Fetched(fetched, SelectRows(rows, cands), dim, None)
    ensures d in fetched <==> d in docs && Selected(cands, d.id)
  {
    SelectedFlat(rows, cands, d.id, dim);
    if Selected(cands, d.id) {
      var i :| 0 <= i < |docs| && docs[i].id == d.id;
      GoodDocsAgree(rows, d.id, dim);
      hide FetchFlat, Flat, AllGood, Selected;
      assert docs[i].flat == FetchFlat(rows, d.id, dim) != [];
      var j :| 0 <= j < |fetched| && fetched[j].id == d.id;
      assert fetched[j] == docs[i];
      assert forall m :: 0 <= m < |docs| && docs[m].id == d.id ==> m == i;
      assert forall m :: 0 <= m < |fetched| && fetched[m].id == d.id ==> m == j;
    }
  }

  /** The second stage reads back the candidate documents as the build saw them. */
  lemma FetchedAreCollected(rows: seq<TokenRow>, dim: nat, docs: seq<Doc>, cands: seq<Hit>, fetched: seq<Doc>)
    requires Grouped(docs, rows, dim, None) && FromDocs(cands, docs)
             && Fetched(fetched, SelectRows(rows, cands), dim, None)
    ensures fetched == SelectDocs(docs, cands)
  {
    SelectIncreases(docs, cands);
    forall d ensures d in fetched <==> d in SelectDocs(docs, cands) {
      FetchedMember(rows, dim, docs, cands, fetched, d);
      SelectedDocs(docs, cands, d);
    }
    hide Selected, FetchFlat;
    SameDocs(fetched, SelectDocs(docs, cands));
  }

  lemma {:induction false} SelectRescored(docs: seq<Doc>, cands: seq<Hit>, dim: nat, sim: (Token, Token) -> int,
      query: seq<Token>)
    requires dim > 0
    ensures AllScored(StoredOf(SelectDocs(docs, cands), dim), sim, query)
              == Rescored(StoredOf(docs, dim), cands, sim, query)
  {
    if docs != [] {
      var init, d := docs[..|docs| - 1], docs[|docs| - 1];
      SelectRescored(init, cands, dim, sim, query);
      assert StoredOf(docs, dim)[..|docs| - 1] == StoredOf(init, dim);
      var a := SelectDocs(init, cands);
      if Selected(cands, d.id) {
        assert SelectDocs(docs, cands) == a + [d];
        assert StoredOf(a + [d], dim)[..|a|] == StoredOf(a, dim);
        assert StoredOf(a + [d], dim)[|a|] == Stored(d.id, Chunks(d.flat, dim));
        assert StoredOf(docs, dim)[|docs| - 1] == Stored(d.id, Chunks(d.flat, dim));
      } else {
        assert SelectDocs(docs, cands) == a;
      }
    }
  }

  /** The exact scores of the documents read back, every one with a token. */
  method ScoreFetched(fetched: seq<Doc>, dim: nat, sim: (Token, Token) -> int, query: seq<Token>)
    returns (scored: seq<Hit>)
    requires dim > 0 && forall i :: 0 <= i < |fetched| ==> |fetched[i].flat| >= dim
    ensures scored == AllScored(StoredOf(fetched, dim), sim, query)
  {
    scored := [];
    for i := 0 to |fetched|
      invariant scored == AllScored(StoredOf(fetched, dim)[..i], sim, query)
    {
      assert StoredOf(fetched, dim)[..i + 1][..i] == StoredOf(fetched, dim)[..i];
      var total := MaxSimDot(sim, query, Chunks(fetched[i].flat, dim));
      scored := scored + [Hit(total, fetched[i].id)];
    }
    assert StoredOf(fetched, dim)[..|fetched|] == StoredOf(fetched, dim);
  }

  /** Every candidate comes from a token hit, and every hit from a collected document. */
  lemma CandidatesFromDocs(ann: Ann, docs: seq<Doc>, dim: nat, query: seq<Token>, take: nat, hits: seq<TokenHit>,
      cands: seq<Hit>, n: nat)
    requires dim > 0 && IsCapped(cands, Best(hits), n)
    requires hits == [] || hits == AllHits(ann, SlotDocs(StoredOf(docs, dim)), query, take)
    ensures FromDocs(cands, docs)
  {
    var stored := StoredOf(docs, dim);
    forall id | Selected(cands, id) ensures exists i :: 0 <= i < |docs| && docs[i].id == id {
      CandidateHit(cands, hits, n, id);
      AllHitsAreDocs(ann, SlotDocs(stored), query, take, id);
      SlotDocsMember(stored, id);
      var i :| 0 <= i < |stored| && stored[i].id == id;
      assert docs[i].id == id;
    }
  }

  lemma CandidateHit(cands: seq<Hit>, hits: seq<TokenHit>, n: nat, id: int)
    requires IsCapped(cands, Best(hits), n) && Selected(cands, id)
    ensures HitsDoc(hits, id)
  {
    var items :| Lists(items, Best(hits)) && cands == TopK(items, n);
    var i :| 0 <= i < |cands| && cands[i].slot == id;
    SortedMultiset(items);
    assert Sorted(items)[i] in multiset(items);
    BestKeys(hits, id);
  }

  /** The hits of stage 1 for these limits. */
  function StageOne(ann: Ann, slotDoc: seq<int>, query: seq<Token>, perTokenK: nat): seq<TokenHit> {
    var take := if perTokenK < |slotDoc| then perTokenK else |slotDoc|;
    if take == 0 then [] else AllHits(ann, slotDoc, query, take)
  }

  /** With full limits every document with a token is rescored. */
  lemma FullLimits(ann: Ann, docs: seq<Stored>, sim: (Token, Token) -> int, query: seq<Token>, perTokenK: nat,
      candidateN: nat, cands: seq<Hit>)
    requires query != [] && CoversAll(ann, |SlotDocs(docs)|) && perTokenK >= |SlotDocs(docs)| && candidateN >= |docs|
    requires IsCapped(cands, Best(StageOne(ann, SlotDocs(docs), query, perTokenK)), candidateN)
    ensures Rescored(docs, cands, sim, query) == AllScored(docs, sim, query)
  {
    hide Rescored, AllScored, CoversAll, IsCapped, AllHits;
    NoSlotsNoTokens(docs);
    if |SlotDocs(docs)| > 0 {
      forall i | 0 <= i < |docs| && docs[i].tokens != [] ensures Selected(cands, docs[i].id) {
        EveryDocSelected(ann, docs, query, cands, candidateN, i);
      }
    }
    RescoredAll(docs, cands, sim, query);
  }

  /** The candidates that `rows` and the limits allow. */
  ghost predicate ChosenBy(docs: seq<Doc>, cands: seq<Hit>, rows: seq<TokenRow>, dim: nat, ann: Ann,
      query: seq<Token>, perTokenK: nat, candidateN: nat)
    requires dim > 0
  {
    && Grouped(docs, rows, dim, None)
    && IsCapped(cands, Best(StageOne(ann, SlotDocs(StoredOf(docs, dim)), query, perTokenK)), candidateN)
  }

  /** `colbert_search` over a table's token rows. For all limits the answer is fixed by the inputs: the exact
      ranking of the candidates, which are the `candidateN` documents with the best token scores. With
      `perTokenK` covering every token and `candidateN` every document it is exact MaxSim ranking over all
      collected documents, ties by ascending id. */
  method Search(rows: seq<TokenRow>, dim: nat, ann: Ann, sim: (Token, Token) -> int, query: seq<Token>, k: nat,
      perTokenK: nat, candidateN: nat)
    returns (ranked: seq<Hit>, ghost docs: seq<Doc>, ghost cands: seq<Hit>)
    requires ByDoc(rows) && dim > 0
    ensures Grouped(docs, rows, dim, None)
    ensures query == [] ==> ranked == []
    ensures query != [] ==> ChosenBy(docs, cands, rows, dim, ann, query, perTokenK, candidateN)
    ensures query != [] ==> ranked == TopK(Rescored(StoredOf(docs, dim), cands, sim, query), k)
    ensures query != [] && CoversAll(ann, |SlotDocs(StoredOf(docs, dim))|)
              && perTokenK >= |SlotDocs(StoredOf(docs, dim))| && candidateN >= |docs| ==>
              ranked == TopK(AllScored(StoredOf(docs, dim), sim, query), k)
  {
    hide Grouped, TopK, Rescored, AllScored, CoversAll, IsCapped, AllHits, Fetched, FromDocs;
    var collected := CollectTokenRows(rows, dim);
    docs, cands := collected, [];
    if query == [] {
      return [], docs, cands;
    }
    var slotDoc := SlotDocs(StoredOf(collected, dim));
    var hits := SearchTokens(ann, slotDoc, query, perTokenK);
    var chosen := CapCandidates(hits, candidateN);
    cands := chosen;
    CandidatesFromDocs(ann, docs, dim, query, if perTokenK < |slotDoc| then perTokenK else |slotDoc|, hits, chosen,
      candidateN);
    var scored := RescoreCandidates(rows, dim, collected, chosen, sim, query);
    ranked := RankScored(scored, k);
    if CoversAll(ann, |slotDoc|) && perTokenK >= |slotDoc| && candidateN >= |docs| {
      FullLimits(ann, StoredOf(docs, dim), sim, query, perTokenK, candidateN, chosen);
    }
  }

  method RankScored(scored: seq<Hit>, k: nat) returns (ranked: seq<Hit>)
    ensures ranked == TopK(scored, k)
  {
    ranked := Sorted(scored);
    ranked := if |ranked| < k then ranked else ranked[..k];
  }

  /** Stage 2: read the candidates' rows again, group them, score them. */
  method RescoreCandidates(rows: seq<TokenRow>, dim: nat, ghost docs: seq<Doc>, cands: seq<Hit>,
      sim: (Token, Token) -> int, query: seq<Token>)
    returns (scored: seq<Hit>)
    requires ByDoc(rows) && dim > 0 && Grouped(docs, rows, dim, None) && FromDocs(cands, docs)
    ensures scored == Rescored(StoredOf(docs, dim), cands, sim, query)
  {
    var selected := SelectRows(rows, cands);
    SelectByDoc(rows, cands);
    var fetched := FetchDocTokens(selected, dim);
    forall i | 0 <= i < |fetched| ensures |fetched[i].flat| >= dim { FetchedLength(selected, fetched[i].id, dim); }
    hide Grouped, Fetched, FromDocs, AllScored, Rescored, SelectRows;
    scored := ScoreFetched(fetched, dim, sim, query);
    FetchedAreCollected(rows, dim, docs, cands, fetched);
    SelectRescored(docs, cands, dim, sim, query);
  }

  /** A grouping lists exactly the kept documents of its rows. */
  lemma GroupedMember(docs: seq<Doc>, rows: seq<TokenRow>, dim: nat, d: Doc)
    requires Grouped(docs, rows, dim, None)
    ensures d in docs <==> Kept(rows, d.id, dim) && d.flat == Flat(rows, d.id, dim)
  {
    hide Kept, Flat;
    if Kept(rows, d.id, dim) && d.flat == Flat(rows, d.id, dim) {
      var i :| 0 <= i < |docs| && docs[i].id == d.id;
      assert docs[i] == d;
    }
  }

  lemma GroupedUnique(a: seq<Doc>, b: seq<Doc>, rows: seq<TokenRow>, dim: nat)
    requires Grouped(a, rows, dim, None) && Grouped(b, rows, dim, None)
    ensures a == b
  {
    hide Kept, Flat;
    forall d ensures d in a <==> d in b {
      GroupedMember(a, rows, dim, d);
      GroupedMember(b, rows, dim, d);
    }
    SameDocs(a, b);
  }

  /** The documents collected and the candidates, and so the answer, are fixed by the inputs of the search:
      they do not depend on the order a hash map is read in. */
  lemma SearchDetermined(rows: seq<TokenRow>, dim: nat, ann: Ann, query: seq<Token>, perTokenK: nat, candidateN: nat,
      aDocs: seq<Doc>, a: seq<Hit>, bDocs: seq<Doc>, b: seq<Hit>)
    requires dim > 0 && ChosenBy(aDocs, a, rows, dim, ann, query, perTokenK, candidateN)
    requires ChosenBy(bDocs, b, rows, dim, ann, query, perTokenK, candidateN)
    ensures aDocs == bDocs && a == b
  {
    GroupedUnique(aDocs, bDocs, rows, dim);
    hide Grouped, IsCapped;
    CappedUnique(a, b, Best(StageOne(ann, SlotDocs(StoredOf(aDocs, dim)), query, perTokenK)), candidateN);
  }

  lemma NoSlotsNoTokens(docs: seq<Stored>)
    ensures SlotDocs(docs) == [] ==> forall i :: 0 <= i < |docs| ==> docs[i].tokens == []
  {
    if SlotDocs(docs) == [] {
      forall i | 0 <= i < |docs| ensures docs[i].tokens == [] { SlotDocsMember(docs, docs[i].id); }
    }
  }
}
