/** The transaction callbacks: PreCommit validates every dirty snapshot before it writes any index,
    then flushes them one by one; Abort and AbortSub drop the dirty entries. */
module Xact {
  import opened Collections
  import opened Options
  import opened IdMap
  import opened Relfile
  import opened Cache

  /** The relfiles of every index, keyed by relation oid; an index may have been dropped. */
  class RelfileStore {
    var images: map<nat, Image>

    constructor (images: map<nat, Image>)
      ensures this.images == images
    {
      this.images := images;
    }
  }

  datatype RowCount = Agreed(count: nat) | Drifted(mirror: int, slots: nat)

  /** The count to persist, taken from the slot table; the separately kept mirror must agree. */
  function ReconciledRowCount(mirror: int, slots: nat): (r: RowCount)
    ensures r.Agreed? <==> mirror == slots
    ensures r.Agreed? ==> r.count == slots
  {
    if mirror < 0 || mirror != slots then Drifted(mirror, slots) else Agreed(slots)
  }

  predicate SnapshotValid(rows: seq<Row>, p: PersistState) {
    p.nVectors == |rows| && Distinct(Ids(rows))
  }

  /** `validate_flush_snapshot`: a repeated id is caught here, id 0 is not. */
  method ValidateFlushSnapshot(rows: seq<Row>, p: PersistState) returns (ok: bool)
    ensures ok <==> SnapshotValid(rows, p)
    ensures ok <==> p.nVectors == |rows| && forall i, j :: 0 <= i < j < |rows| ==> rows[i].id != rows[j].id
  {
    DistinctIds(rows);
    var count := ReconciledRowCount(p.nVectors, |rows|);
    if count.Drifted? {
      return false;
    }
    var dup := FirstDuplicateId(Ids(rows));
    ok := dup.None?;
  }

  // ---------------------------------------------------------------- what a commit does, key by key

  ghost predicate OneDirtyPerRel(entries: map<CacheKey, Entry>) {
    forall j, k ::
      j in entries && k in entries && Flushable(entries[j]) && Flushable(entries[k]) && j.relOid == k.relOid ==>
        j == k
  }

  ghost predicate AllValid(entries: map<CacheKey, Entry>) {
    forall k :: k in entries && Flushable(entries[k]) ==> SnapshotValid(entries[k].index.rows, entries[k].persist.value)
  }

  function FlushOf(e: Entry, img: Image, maxPct: int): FlushResult
    requires Flushable(e)
  {
    Flush(img, e.index.rows, e.persist.value.touchedIds, e.persist.value.version, maxPct)
  }

  ghost predicate NoneRefused(entries: map<CacheKey, Entry>, images: map<nat, Image>, maxPct: int) {
    forall k :: k in entries && Flushable(entries[k]) && k.relOid in images
      ==> FlushOf(entries[k], images[k.relOid], maxPct).Flushed?
  }

  /** What the flush of one entry reports; nothing when the index is gone. */
  function OutcomeOf(k: CacheKey, e: Entry, images: map<nat, Image>, maxPct: int): Option<FlushOutcome>
    requires Flushable(e)
  {
    if k.relOid in images && FlushOf(e, images[k.relOid], maxPct).Flushed?
    then Some(FlushOf(e, images[k.relOid], maxPct).outcome)
    else None
  }

  ghost predicate ImageAfter(entries: map<CacheKey, Entry>, before: map<nat, Image>, after: map<nat, Image>,
      k: CacheKey, maxPct: int)
    requires k in entries && Flushable(entries[k])
  {
    k.relOid in before ==>
      && FlushOf(entries[k], before[k.relOid], maxPct).Flushed?
      && k.relOid in after && after[k.relOid] == FlushOf(entries[k], before[k.relOid], maxPct).img
  }

  predicate DirtyRel(entries: map<CacheKey, Entry>, done: set<CacheKey>, rel: nat) {
    exists k :: k in done && k in entries && k.relOid == rel
  }

  /** The disk once the entries in `done` have been flushed. */
  ghost predicate ImagesAfter(entries: map<CacheKey, Entry>, before: map<nat, Image>, after: map<nat, Image>,
      done: set<CacheKey>, maxPct: int)
    requires forall k :: k in done ==> k in entries && Flushable(entries[k])
  {
    && after.Keys == before.Keys
    && (forall k :: k in done ==> ImageAfter(entries, before, after, k, maxPct))
    && (forall r :: r in before && !DirtyRel(entries, done, r) ==> after[r] == before[r])
  }

  /** The cache once the entries in `done` have been flushed and cleared. */
  ghost predicate EntriesAfter(before: map<CacheKey, Entry>, images: map<nat, Image>, after: map<CacheKey, Entry>,
      done: set<CacheKey>, maxPct: int)
    requires forall k :: k in done ==> k in before && Flushable(before[k])
  {
    && (forall k :: k in after ==> k in before)
    && (forall k :: k in before && k !in done ==> k in after && after[k] == before[k])
    && (forall k :: k in done ==>
          var s := Settled(before[k], OutcomeOf(k, before[k], images, maxPct));
          (k in after <==> s.Some?) && (k in after ==> after[k] == s.value))
  }

  ghost function FlushableKeys(entries: map<CacheKey, Entry>): (s: set<CacheKey>)
    ensures forall k :: k in s <==> (k in entries && Flushable(entries[k]))
  {
    set k | k in entries && Flushable(entries[k])
  }

  lemma NotYetWritten(entries: map<CacheKey, Entry>, before: map<nat, Image>, after: map<nat, Image>,
      done: set<CacheKey>, k: CacheKey, maxPct: int)
    requires OneDirtyPerRel(entries) && k in entries && Flushable(entries[k]) && k !in done
    requires forall j :: j in done ==> j in entries && Flushable(entries[j])
    requires ImagesAfter(entries, before, after, done, maxPct)
    ensures k.relOid in after <==> k.relOid in before
    ensures k.relOid in before ==> after[k.relOid] == before[k.relOid]
    ensures forall j :: j in done ==> j.relOid != k.relOid
  {
  }

  lemma DirtyRelGrows(entries: map<CacheKey, Entry>, done: set<CacheKey>, more: set<CacheKey>, rel: nat)
    requires done <= more
    ensures DirtyRel(entries, done, rel) ==> DirtyRel(entries, more, rel)
  {
  }

  lemma OthersNotRewritten(entries: map<CacheKey, Entry>, before: map<nat, Image>, after: map<nat, Image>,
      done: set<CacheKey>, k: CacheKey, img: Image, r: nat, maxPct: int)
    requires k in entries && forall j :: j in done ==> j in entries && Flushable(entries[j])
    requires ImagesAfter(entries, before, after, done, maxPct)
    requires r in before && !DirtyRel(entries, done + {k}, r)
    ensures r in after && after[k.relOid := img][r] == before[r] == after[r]
  {
    hide ImageAfter;
    assert k in done + {k};
    DirtyRelGrows(entries, done, done + {k}, r);
  }

  lemma OthersStayWritten(entries: map<CacheKey, Entry>, before: map<nat, Image>, after: map<nat, Image>,
      k: CacheKey, img: Image, j: CacheKey, maxPct: int)
    requires j in entries && Flushable(entries[j]) && j.relOid != k.relOid
    requires ImageAfter(entries, before, after, j, maxPct)
    ensures ImageAfter(entries, before, after[k.relOid := img], j, maxPct)
  {
    hide FlushOf;
  }

  lemma ImagesStep(entries: map<CacheKey, Entry>, before: map<nat, Image>, after: map<nat, Image>,
      done: set<CacheKey>, k: CacheKey, maxPct: int)
    requires OneDirtyPerRel(entries) && k in entries && Flushable(entries[k]) && k !in done
    requires forall j :: j in done ==> j in entries && Flushable(entries[j])
    requires ImagesAfter(entries, before, after, done, maxPct)
    requires k.relOid in before ==> FlushOf(entries[k], before[k.relOid], maxPct).Flushed?
    ensures ImagesAfter(entries, before,
              if k.relOid in before then after[k.relOid := FlushOf(entries[k], before[k.relOid], maxPct).img]
              else after,
              done + {k}, maxPct)
  {
    hide FlushOf;
    NotYetWritten(entries, before, after, done, k, maxPct);
    if k.relOid in before {
      var img := FlushOf(entries[k], before[k.relOid], maxPct).img;
      hide Flushable, DirtyRel, OneDirtyPerRel;
      forall r | r in before && !DirtyRel(entries, done + {k}, r) ensures after[k.relOid := img][r] == before[r] {
        OthersNotRewritten(entries, before, after, done, k, img, r, maxPct);
      }
      forall j | j in done ensures ImageAfter(entries, before, after[k.relOid := img], j, maxPct) {
        OthersStayWritten(entries, before, after, k, img, j, maxPct);
      }
    } else {
      forall r | r in before && !DirtyRel(entries, done + {k}, r) ensures after[r] == before[r] {
        DirtyRelGrows(entries, done, done + {k}, r);
      }
    }
  }

  datatype CommitResult = Committed | Rejected | FlushFailed

  method ValidateAll(dirty: seq<DirtyEntry>) returns (ok: bool)
    ensures ok <==> forall i :: 0 <= i < |dirty| ==> SnapshotValid(dirty[i].rows, dirty[i].persist)
  {
    for i := 0 to |dirty|
      invariant forall j :: 0 <= j < i ==> SnapshotValid(dirty[j].rows, dirty[j].persist)
    {
      ok := ValidateFlushSnapshot(dirty[i].rows, dirty[i].persist);
      if !ok {
        return;
      }
    }
    ok := true;
  }

  /** One entry: flush it onto the index as it is on disk now, then settle it. */
  method FlushAndClear(cache: BackendCache, store: RelfileStore, d: DirtyEntry, maxPct: int) returns (ok: bool)
    requires cache.Valid() && d.key in cache.entries && Flushable(cache.entries[d.key])
    requires d.rows == cache.entries[d.key].index.rows && d.persist == cache.entries[d.key].persist.value
    modifies cache, store
    ensures cache.Valid()
    ensures ok <==> (d.key.relOid in old(store.images) ==>
              FlushOf(old(cache.entries)[d.key], old(store.images)[d.key.relOid], maxPct).Flushed?)
    ensures !ok ==> cache.View() == old(cache.View()) && store.images == old(store.images)
    ensures ok ==>
              && cache.View() == AfterClearDirty(old(cache.View()), d.key,
                                   OutcomeOf(d.key, old(cache.entries)[d.key], old(store.images), maxPct))
              && store.images == if d.key.relOid in old(store.images)
                   then old(store.images)[d.key.relOid :=
                     FlushOf(old(cache.entries)[d.key], old(store.images)[d.key.relOid], maxPct).img]
                   else old(store.images)
  {
    var rel := d.key.relOid;
    var outcome: Option<FlushOutcome> := None;
    if rel in store.images {
      var flushed := Flush(store.images[rel], d.rows, d.persist.touchedIds, d.persist.version, maxPct);
      if flushed.Refused? {
        return false;
      }
      store.images := store.images[rel := flushed.img];
      outcome := Some(flushed.outcome);
    }
    cache.ClearDirty(d.key, outcome);
    ok := true;
  }

  lemma EntriesStep(before: map<CacheKey, Entry>, images: map<nat, Image>, now: State, done: set<CacheKey>,
      k: CacheKey, maxPct: int)
    requires k in before && Flushable(before[k]) && k !in done
    requires forall j :: j in done ==> j in before && Flushable(before[j])
    requires EntriesAfter(before, images, now.entries, done, maxPct)
    ensures EntriesAfter(before, images, AfterClearDirty(now, k, OutcomeOf(k, before[k], images, maxPct)).entries,
              done + {k}, maxPct)
  {
  }

  lemma SameOutcome(entries: map<CacheKey, Entry>, before: map<nat, Image>, after: map<nat, Image>,
      done: set<CacheKey>, k: CacheKey, maxPct: int)
    requires OneDirtyPerRel(entries) && k in entries && Flushable(entries[k]) && k !in done
    requires forall j :: j in done ==> j in entries && Flushable(entries[j])
    requires ImagesAfter(entries, before, after, done, maxPct)
    ensures OutcomeOf(k, entries[k], after, maxPct) == OutcomeOf(k, entries[k], before, maxPct)
  {
    NotYetWritten(entries, before, after, done, k, maxPct);
  }

  ghost predicate Drained(entries: map<CacheKey, Entry>, dirty: seq<DirtyEntry>) {
    && (forall i :: 0 <= i < |dirty| ==>
          && dirty[i].key in entries && Flushable(entries[dirty[i].key])
          && dirty[i].rows == entries[dirty[i].key].index.rows
             && dirty[i].persist == entries[dirty[i].key].persist.value)
    && (forall i, j :: 0 <= i < j < |dirty| ==> dirty[i].key != dirty[j].key)
  }

  ghost function KeysOf(dirty: seq<DirtyEntry>): (s: set<CacheKey>)
    ensures forall k :: k in s <==> exists i :: 0 <= i < |dirty| && dirty[i].key == k
  {
    set i | 0 <= i < |dirty| :: dirty[i].key
  }

  predicate Accepted(entries: map<CacheKey, Entry>, images: map<nat, Image>, k: CacheKey, maxPct: int)
    requires k in entries && Flushable(entries[k])
  {
    k.relOid in images ==> FlushOf(entries[k], images[k.relOid], maxPct).Flushed?
  }

  ghost predicate CommitProgress(entries: map<CacheKey, Entry>, images: map<nat, Image>, now: map<CacheKey, Entry>,
      disk: map<nat, Image>, done: set<CacheKey>, maxPct: int)
  {
    && (forall k :: k in done ==> k in entries && Flushable(entries[k]))
    && ImagesAfter(entries, images, disk, done, maxPct)
    && EntriesAfter(entries, images, now, done, maxPct)
  }

  lemma CommitStart(entries: map<CacheKey, Entry>, images: map<nat, Image>, maxPct: int)
    ensures CommitProgress(entries, images, entries, images, {}, maxPct)
  {
  }

  lemma CommitAt(entries: map<CacheKey, Entry>, images: map<nat, Image>, now: map<CacheKey, Entry>,
      disk: map<nat, Image>, done: set<CacheKey>, k: CacheKey, maxPct: int)
    requires CommitProgress(entries, images, now, disk, done, maxPct)
    requires OneDirtyPerRel(entries) && k in entries && Flushable(entries[k]) && k !in done
    ensures k in now && now[k] == entries[k]
    ensures k.relOid in disk <==> k.relOid in images
    ensures k.relOid in images ==> disk[k.relOid] == images[k.relOid]
  {
    NotYetWritten(entries, images, disk, done, k, maxPct);
  }

  lemma CommitStep(entries: map<CacheKey, Entry>, images: map<nat, Image>, now: State, disk: map<nat, Image>,
      done: set<CacheKey>, k: CacheKey, maxPct: int)
    requires CommitProgress(entries, images, now.entries, disk, done, maxPct)
    requires OneDirtyPerRel(entries) && k in entries && Flushable(entries[k]) && k !in done
    requires Accepted(entries, images, k, maxPct)
    ensures CommitProgress(entries, images,
              AfterClearDirty(now, k, OutcomeOf(k, entries[k], disk, maxPct)).entries,
              if k.relOid in disk then disk[k.relOid := FlushOf(entries[k], images[k.relOid], maxPct).img] else disk,
              done + {k}, maxPct)
  {
    SameOutcome(entries, images, disk, done, k, maxPct);
    ImagesStep(entries, images, disk, done, k, maxPct);
    EntriesStep(entries, images, now, done, k, maxPct);
  }

  method FlushAll(cache: BackendCache, store: RelfileStore, dirty: seq<DirtyEntry>, maxPct: int) returns (ok: bool)
    requires cache.Valid() && OneDirtyPerRel(cache.entries) && Drained(cache.entries, dirty)
    modifies cache, store
    ensures cache.Valid() && cache.clock == old(cache.clock)
    ensures ok <==> forall i :: 0 <= i < |dirty| ==>
              Accepted(old(cache.entries), old(store.images), dirty[i].key, maxPct)
    ensures ok ==> CommitProgress(old(cache.entries), old(store.images), cache.entries, store.images, KeysOf(dirty),
              maxPct)
  {
    hide CommitProgress, AfterClearDirty, FlushOf, OutcomeOf, Flush;
    ghost var entries0, images0 := cache.entries, store.images;
    ghost var done: set<CacheKey> := {};
    CommitStart(entries0, images0, maxPct);
    for i := 0 to |dirty|
      invariant cache.Valid() && cache.clock == old(cache.clock)
      invariant forall k :: k in done <==> exists j :: 0 <= j < i && dirty[j].key == k
      invariant forall j :: 0 <= j < i ==> Accepted(entries0, images0, dirty[j].key, maxPct)
      invariant CommitProgress(entries0, images0, cache.entries, store.images, done, maxPct)
    {
      ghost var k, now, disk := dirty[i].key, cache.View(), store.images;
      CommitAt(entries0, images0, now.entries, disk, done, k, maxPct);
      ok := FlushAndClear(cache, store, dirty[i], maxPct);
      assert ok <==> Accepted(entries0, images0, k, maxPct);
      if !ok {
        return;
      }
      CommitStep(entries0, images0, now, disk, done, k, maxPct);
      done := done + {k};
    }
    assert done == KeysOf(dirty);
    ok := true;
  }

  /** Validation of all entries comes first, so a rejected transaction has written nothing; and when no
      flush refuses, every dirty index is written and every entry settled, whatever the drain order. */
  method PreCommit(cache: BackendCache, store: RelfileStore, maxPct: int) returns (r: CommitResult)
    requires cache.Valid() && OneDirtyPerRel(cache.entries)
    modifies cache, store
    ensures cache.Valid() && cache.clock == old(cache.clock)
    ensures r.Rejected? <==> !AllValid(old(cache.entries))
    ensures r.Rejected? ==> cache.entries == old(cache.entries) && store.images == old(store.images)
    ensures r.Committed? <==> AllValid(old(cache.entries)) && NoneRefused(old(cache.entries), old(store.images), maxPct)
    ensures r.Committed? ==>
              && ImagesAfter(old(cache.entries), old(store.images), store.images, FlushableKeys(old(cache.entries)),
                   maxPct)
              && EntriesAfter(old(cache.entries), old(store.images), cache.entries, FlushableKeys(old(cache.entries)),
                   maxPct)
  {
    var dirty := cache.DrainDirty();
    assert KeysOf(dirty) == FlushableKeys(cache.entries);
    var valid := ValidateAll(dirty);
    if !valid {
      return Rejected;
    }
    var ok := FlushAll(cache, store, dirty, maxPct);
    r := if ok then Committed else FlushFailed;
  }
}
