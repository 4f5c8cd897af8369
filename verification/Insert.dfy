/** `aminsert` on a flat or IVF index: find or load the backend's mutable copy, upsert into it,
    and record the id for the commit to flush. */
module Insert {
  import opened Options
  import opened IdMap
  import opened Relfile
  import opened Cache

  function AmKey(rel: nat, img: Image): CacheKey {
    CacheKey(rel, 0, img.shape.bitWidth, img.shape.dim)
  }

  /** The first read of the meta page is unlocked, so an index seen empty there may have been filled since. */
  function LoadedRows(img: Image, sawEmpty: bool): seq<Row> {
    if sawEmpty then [] else img.rows
  }

  function LoadedVersion(img: Image, sawEmpty: bool): nat {
    if sawEmpty then 0 else img.version
  }

  function LoadedState(img: Image, sawEmpty: bool): PersistState {
    var rows := LoadedRows(img, sawEmpty);
    PersistState(|rows|, LoadedVersion(img, sawEmpty), Ids(rows), [])
  }

  /** The cache's estimate of a loaded index's size. */
  function EstimatedBytes(img: Image, sawEmpty: bool): nat {
    var perVector := img.shape.dim * img.shape.bitWidth / 8 + 4 + 64;
    var n := |LoadedRows(img, sawEmpty)|;
    perVector * (if n == 0 then 1 else n)
  }

  /** Keys tell indexes apart, and the shapes an index may be rebuilt with; the access method's are numbered 0. */
  lemma KeysApart(r: nat, s: nat, a: Image, b: Image)
    ensures AmKey(r, a) == AmKey(s, b) <==> r == s && a.shape == b.shape
    ensures AmKey(r, a).relOid == r && AmKey(r, a).attnum == 0
  {
  }

  /** An index counts its packed code, its scale and its table entry for every row, and an empty one as if it
      had a row. */
  lemma EstimateGrows(a: Image, b: Image, sawEmpty: bool)
    requires a.shape == b.shape
    ensures |b.rows| == |a.rows| + 1 && a.rows != [] ==>
              EstimatedBytes(b, false) == EstimatedBytes(a, false) + a.shape.dim * a.shape.bitWidth / 8 + 68
    ensures a.rows == [] || sawEmpty ==> EstimatedBytes(a, sawEmpty) == a.shape.dim * a.shape.bitWidth / 8 + 68
    ensures |a.rows| == 1 ==> EstimatedBytes(a, false) == EstimatedBytes(a, true)
  {
  }

  datatype InsertResult = Inserted | LoadFailed | EntryVanished

  function AfterLoad(st: State, img: Image, sawEmpty: bool, key: CacheKey): State {
    AfterInstall(st, key, Mutable(LoadedRows(img, sawEmpty)), EstimatedBytes(img, sawEmpty), img.node,
                 LoadedVersion(img, sawEmpty), Some(LoadedState(img, sawEmpty)))
  }

  predicate Upsertable(st: State, key: CacheKey) {
    key in st.entries && st.entries[key].index.Mutable? && st.entries[key].persist.Some?
  }

  /** Every way one insert can go. Installing a loaded copy enforces the cap, which may evict clean entries,
      the new one among them; `mid` is the cache after that. An index that repeats an id cannot be loaded for
      mutation. */
  ghost predicate InsertStep(before: State, img: Image, sawEmpty: bool, capMb: int, key: CacheKey, id: Id, code: Code,
      mid: State, after: State, r: InsertResult)
  {
    var found := AfterMutationLookup(before, key, img.node);
    if !MutationHit(before, key, img.node) && !Unique(LoadedRows(img, sawEmpty)) then
      r.LoadFailed? && mid == found && after == found
    else
      && (if MutationHit(before, key, img.node) then mid == found
          else mid.clock == found.clock + 1 && Capped(AfterLoad(found, img, sawEmpty, key).entries, mid.entries, capMb))
      && (if Upsertable(mid, key) then r.Inserted? && after == AfterUpsert(mid, key, id, code)
          else r.EntryVanished? && after == mid)
  }

  /** An insert that had to load a copy finds it gone again exactly when caching is off, or the backend's
      unflushed entries and the new copy together pass the cap. */
  lemma LoadedVanishesIff(before: State, img: Image, sawEmpty: bool, capMb: int, key: CacheKey, id: Id, code: Code,
      mid: State, after: State, r: InsertResult)
    requires Stamped(before) && InsertStep(before, img, sawEmpty, capMb, key, id, code, mid, after, r)
    requires !MutationHit(before, key, img.node) && Unique(LoadedRows(img, sawEmpty))
    ensures r.EntryVanished? <==> NoRoom(before.entries - {key}, EstimatedBytes(img, sawEmpty), capMb)
  {
    var found := AfterMutationLookup(before, key, img.node);
    hide Capped, Stamped, EstimatedBytes, NoRoom, Unique;
    assert found.entries == found.entries - {key} == before.entries - {key};
    assert Stamped(found) by { LookupStamped(before, key, img.node); }
    InstalledGoesIff(found, key, Mutable(LoadedRows(img, sawEmpty)), EstimatedBytes(img, sawEmpty), img.node,
                     LoadedVersion(img, sawEmpty), Some(LoadedState(img, sawEmpty)), mid.entries, capMb);
    CappedKeeps(AfterLoad(found, img, sawEmpty, key).entries, mid.entries, capMb);
  }

  lemma LookupStamped(st: State, key: CacheKey, node: nat)
    requires Stamped(st) && !MutationHit(st, key, node)
    ensures Stamped(AfterMutationLookup(st, key, node))
  {
  }

  lemma CappedKeeps(before: map<CacheKey, Entry>, after: map<CacheKey, Entry>, capMb: int)
    requires Capped(before, after, capMb)
    ensures forall k :: k in after ==> k in before && after[k] == before[k]
  {
  }

  /** The rows an insert upserts into are its own copy's; those on disk when it had to load; or none for an index
      seen empty. The copy's version moves one past the one it had there. */
  lemma InsertedOnto(before: State, img: Image, sawEmpty: bool, capMb: int, key: CacheKey, id: Id, code: Code,
      mid: State, after: State, r: InsertResult)
    requires InsertStep(before, img, sawEmpty, capMb, key, id, code, mid, after, r) && r.Inserted?
    ensures Upsertable(after, key) && after.entries[key].dirty
    ensures var hit, e := MutationHit(before, key, img.node), after.entries[key];
            && (hit ==> before.entries[key].persist.Some?)
            && (hit ==> var was := before.entries[key];
                        e.index.rows == Upsert(was.index.rows, id, code) && e.relfilenode == was.relfilenode
                        && e.persist.value.version == was.persist.value.version + 1)
            && (!hit ==> e.relfilenode == img.node
                         && e.index.rows == Upsert(if sawEmpty then [] else img.rows, id, code)
                         && e.persist.value.version == 1 + if sawEmpty then 0 else img.version)
  {
    hide Capped, Upserted, Unique, Upsert, EstimatedBytes;
    assert after.entries[key] == Upserted(mid.entries[key], id, code);
    UpsertedFields(mid.entries[key], id, code);
    if !MutationHit(before, key, img.node) {
      var loaded := AfterLoad(AfterMutationLookup(before, key, img.node), img, sawEmpty, key);
      CappedKeeps(loaded.entries, mid.entries, capMb);
    }
  }

  lemma UpsertedFields(e: Entry, id: Id, code: Code)
    requires e.index.Mutable? && e.persist.Some?
    ensures var u := Upserted(e, id, code);
            && u.index == Mutable(Upsert(e.index.rows, id, code)) && u.relfilenode == e.relfilenode && u.dirty
            && u.persist.Some? && u.persist.value.version == e.persist.value.version + 1
  {
    hide Upsert, Has;
  }

  method AmInsert(cache: BackendCache, img: Image, sawEmpty: bool, key: CacheKey, id: Id, code: Code, capMb: int)
    returns (r: InsertResult, ghost mid: State)
    requires cache.Valid()
    modifies cache
    ensures cache.Valid()
    ensures InsertStep(old(cache.View()), img, sawEmpty, capMb, key, id, code, mid, cache.View(), r)
    ensures var st, miss := old(cache.View()), !MutationHit(old(cache.View()), key, img.node);
            && (r.LoadFailed? <==> miss && !sawEmpty && !Unique(img.rows))
            && (miss && (sawEmpty || Unique(img.rows)) ==>
                  (r.EntryVanished? <==> NoRoom(st.entries - {key}, EstimatedBytes(img, sawEmpty), capMb)))
  {
    ghost var before := cache.View();
    var hit := cache.AmLookupForMutation(key, img.node);
    if hit.None? {
      var rows := LoadedRows(img, sawEmpty);
      var dup := FirstDuplicateId(Ids(rows));
      DistinctIds(rows);
      if dup.Some? {
        return LoadFailed, cache.View();
      }
      cache.Install(key, Mutable(rows), EstimatedBytes(img, sawEmpty), img.node, LoadedVersion(img, sawEmpty),
                    Some(LoadedState(img, sawEmpty)), capMb);
    }
    mid := cache.View();
    var updated := cache.UpsertAndMarkDirty(key, id, code);
    r := if updated then Inserted else EntryVanished;
    hide Capped, Stamped, NoRoom, Unique;
    if hit.None? {
      LoadedVanishesIff(before, img, sawEmpty, capMb, key, id, code, mid, cache.View(), r);
    }
  }
}
