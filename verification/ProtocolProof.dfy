/** Every step of the deferred-flush protocol keeps its invariant. */
module ProtocolProof {
  import opened Options
  import opened IdMap
  import opened Reconcile
  import opened Relfile
  import opened Cache
  import opened Xact
  import opened Insert
  import opened Protocol

  // ---------------------------------------------------------------- logs

  lemma LogAppend(log: seq<Change>, c: Change, rel: nat)
    ensures RelIds(log + [c], rel) == if c.rel == rel then RelIds(log, rel) + [c.id] else RelIds(log, rel)
    ensures ChangesMap(log + [c], rel) ==
              if c.rel == rel then ChangesMap(log, rel)[c.id := c.code] else ChangesMap(log, rel)
  {
    assert (log + [c])[..|log|] == log;
  }

  lemma {:induction false} NoneOfRel(log: seq<Change>, rel: nat)
    requires forall i :: 0 <= i < |log| ==> log[i].rel != rel
    ensures RelIds(log, rel) == [] && ChangesMap(log, rel) == map[]
  {
    if log != [] { NoneOfRel(log[..|log| - 1], rel); }
  }

  // ---------------------------------------------------------------- cache updates that keep every dirty entry

  /** Only clean entries went, and nothing but use stamps changed. */
  ghost predicate Thinned(before: map<CacheKey, Entry>, after: map<CacheKey, Entry>) {
    && (forall k :: k in after ==> k in before && after[k] == before[k].(seqNo := after[k].seqNo))
    && (forall k :: k in before && before[k].dirty ==> k in after)
  }

  lemma HasDirtyThinned(before: map<CacheKey, Entry>, after: map<CacheKey, Entry>, rel: nat)
    requires Thinned(before, after)
    ensures HasDirty(before, rel) <==> HasDirty(after, rel)
  {
    if HasDirty(before, rel) {
      var k :| k in before && k.relOid == rel && before[k].dirty;
      assert k in after;
    }
    if HasDirty(after, rel) {
      var k :| k in after && k.relOid == rel && after[k].dirty;
      assert k in before;
    }
  }

  lemma EntryOkSeq(disk: map<nat, Image>, nextNode: nat, kept: seq<Change>, k: CacheKey, e: Entry, s: nat)
    requires EntryOk(disk, nextNode, kept, k, e)
    ensures EntryOk(disk, nextNode, kept, k, e.(seqNo := s))
  {
  }

  lemma ThinnedOk(disk: map<nat, Image>, nextNode: nat, kept: seq<Change>, before: map<CacheKey, Entry>,
      after: map<CacheKey, Entry>)
    requires EntriesOk(disk, nextNode, kept, before) && OneDirtyPerRel(before) && Thinned(before, after)
    ensures EntriesOk(disk, nextNode, kept, after) && OneDirtyPerRel(after)
    ensures KeptDirty(before, kept) ==> KeptDirty(after, kept)
    ensures NoDirty(before) ==> NoDirty(after)
  {
    hide EntryOk;
    forall k | k in after ensures EntryOk(disk, nextNode, kept, k, after[k]) {
      EntryOkSeq(disk, nextNode, kept, k, before[k], after[k].seqNo);
    }
    forall i | 0 <= i < |kept| ensures HasDirty(before, kept[i].rel) <==> HasDirty(after, kept[i].rel) {
      HasDirtyThinned(before, after, kept[i].rel);
    }
  }

  lemma InstallCleanOk(disk: map<nat, Image>, nextNode: nat, kept: seq<Change>, entries: map<CacheKey, Entry>,
      key: CacheKey, e: Entry)
    requires EntriesOk(disk, nextNode, kept, entries) && OneDirtyPerRel(entries)
    requires key in entries ==> !entries[key].dirty
    requires EntryOk(disk, nextNode, kept, key, e) && !e.dirty
    ensures EntriesOk(disk, nextNode, kept, entries[key := e]) && OneDirtyPerRel(entries[key := e])
    ensures KeptDirty(entries, kept) ==> KeptDirty(entries[key := e], kept)
    ensures NoDirty(entries) ==> NoDirty(entries[key := e])
  {
    hide EntryOk;
    if KeptDirty(entries, kept) {
      forall i | 0 <= i < |kept| ensures HasDirty(entries[key := e], kept[i].rel) {
        assert HasDirty(entries, kept[i].rel);
        var k :| k in entries && k.relOid == kept[i].rel && entries[k].dirty;
        assert k in entries[key := e] && entries[key := e][k].dirty;
      }
    }
  }

  // ---------------------------------------------------------------- disk writes by others

  /** The index was left alone, or rewritten in place with a later version. */
  ghost predicate Advanced(before: Image, after: Image) {
    || after == before
    || (after.node == before.node && after.shape == before.shape && after.version > before.version
        && (Unique(before.rows) ==> Unique(after.rows)))
  }

  ghost predicate DiskAdvances(before: map<nat, Image>, after: map<nat, Image>) {
    after.Keys == before.Keys && forall r :: r in before ==> Advanced(before[r], after[r])
  }

  lemma EntryOkAdvanced(disk: map<nat, Image>, after: map<nat, Image>, nextNode: nat, kept: seq<Change>, k: CacheKey,
      e: Entry)
    requires DiskAdvances(disk, after) && EntryOk(disk, nextNode, kept, k, e)
    ensures EntryOk(after, nextNode, kept, k, e)
  {
    if k.relOid in disk { assert Advanced(disk[k.relOid], after[k.relOid]); }
  }

  lemma BackendOkAdvanced(disk: map<nat, Image>, after: map<nat, Image>, nextNode: nat, x: Backend)
    requires DiskAdvances(disk, after) && BackendOk(disk, nextNode, x)
    ensures BackendOk(after, nextNode, x)
  {
    hide EntryOk;
    forall k | k in x.cache.entries ensures EntryOk(after, nextNode, x.kept, k, x.cache.entries[k]) {
      EntryOkAdvanced(disk, after, nextNode, x.kept, k, x.cache.entries[k]);
    }
    if x.scan.Opened? && x.scan.rel in disk { assert Advanced(disk[x.scan.rel], after[x.scan.rel]); }
  }

  // ---------------------------------------------------------------- inserts

  lemma UpsertTouched(rows: seq<Row>, touched: seq<Id>, id: Id, code: Code)
    requires Unique(rows) && TouchedInSnapshot(rows, touched)
    ensures TouchedInSnapshot(Upsert(rows, id, code), touched + [id])
  {
    UpsertFacts(rows, id, code);
    var m, out := ToMap(rows), Upsert(rows, id, code);
    hide Upsert;
    forall k | k in touched + [id] ensures Has(out, k) {
      assert k in touched ==> k in m;
      assert k in ToMap(out);
    }
  }

  ghost predicate Restricts(part: map<Id, Code>, m: map<Id, Code>, touched: seq<Id>) {
    && (forall k: Id :: k in part <==> (k in touched && k in m))
    && (forall k: Id :: k in part ==> part[k] == m[k])
  }

  lemma RestrictUpdate(m: map<Id, Code>, had: map<Id, Code>, got: map<Id, Code>, touched: seq<Id>, id: Id, code: Code)
    requires Restricts(had, m, touched) && Restricts(got, m[id := code], touched + [id])
    ensures got == had[id := code]
  {
    assert forall k: Id :: k in touched + [id] <==> (k in touched || k == id);
  }

  lemma UpsertPicked(rows: seq<Row>, touched: seq<Id>, id: Id, code: Code)
    requires Unique(rows)
    ensures Picked(Upsert(rows, id, code), touched + [id]) == Picked(rows, touched)[id := code]
  {
    UpsertFacts(rows, id, code);
    PickedRestricts(rows, touched);
    PickedRestricts(Upsert(rows, id, code), touched + [id]);
    hide *;
    RestrictUpdate(ToMap(rows), Picked(rows, touched), Picked(Upsert(rows, id, code), touched + [id]), touched, id,
      code);
  }

  lemma PickedRestricts(rows: seq<Row>, touched: seq<Id>)
    ensures Restricts(Picked(rows, touched), ToMap(rows), touched)
  {
  }

  lemma UpsertNonzero(rows: seq<Row>, id: Id, code: Code)
    requires NonzeroIds(rows) && id != 0
    ensures NonzeroIds(Upsert(rows, id, code))
  {
  }

  lemma UpsertedMutable(e: Entry, id: Id, code: Code)
    requires MutableOk(e) && id != 0
    ensures MutableOk(Upserted(e, id, code))
  {
    UpsertFacts(e.index.rows, id, code);
    UpsertIds(e.index.rows, id, code);
    UpsertTouched(e.index.rows, e.persist.value.touchedIds, id, code);
    UpsertNonzero(e.index.rows, id, code);
    hide Upsert, Unique, NonzeroIds, Ids, TouchedInSnapshot;
  }

  /** The entry after one upsert, from a clean entry or from one already holding this transaction's changes. */
  lemma UpsertedOk(disk: map<nat, Image>, nextNode: nat, kept: seq<Change>, k: CacheKey, e: Entry, c: Change)
    requires MutableOk(e) && e.relfilenode < nextNode && c.rel == k.relOid && c.id != 0
    requires e.persist.value.touchedIds == RelIds(kept, c.rel)
    requires Picked(e.index.rows, e.persist.value.touchedIds) == ChangesMap(kept, c.rel)
    requires c.rel in disk && e.relfilenode == disk[c.rel].node && k == AmKey(c.rel, disk[c.rel])
             && Unique(disk[c.rel].rows)
    ensures EntryOk(disk, nextNode, kept + [c], k, Upserted(e, c.id, c.code))
  {
    UpsertedMutable(e, c.id, c.code);
    assert Unique(e.index.rows);
    UpsertPicked(e.index.rows, e.persist.value.touchedIds, c.id, c.code);
    LogAppend(kept, c, c.rel);
    hide MutableOk, Upsert, Picked, ChangesMap, RelIds, Unique, AmKey;
  }

  lemma EntryOkOtherRel(disk: map<nat, Image>, nextNode: nat, kept: seq<Change>, c: Change, k: CacheKey, e: Entry)
    requires EntryOk(disk, nextNode, kept, k, e) && (e.dirty ==> k.relOid != c.rel)
    ensures EntryOk(disk, nextNode, kept + [c], k, e)
  {
    if e.dirty { LogAppend(kept, c, k.relOid); }
  }

  lemma PutUpserted(disk: map<nat, Image>, nextNode: nat, kept: seq<Change>, entries: map<CacheKey, Entry>,
      key: CacheKey, e: Entry, c: Change)
    requires forall k :: k in entries && k != key ==> EntryOk(disk, nextNode, kept, k, entries[k])
    requires OneDirtyPerRel(entries) && c.rel in disk && key == AmKey(c.rel, disk[c.rel])
    requires EntryOk(disk, nextNode, kept + [c], key, e) && e.dirty
    requires forall i :: 0 <= i < |kept| && kept[i].rel != c.rel ==> HasDirty(entries, kept[i].rel)
    ensures EntriesOk(disk, nextNode, kept + [c], entries[key := e]) && OneDirtyPerRel(entries[key := e])
    ensures KeptDirty(entries[key := e], kept + [c])
  {
    var out := entries[key := e];
    forall k | k in entries && k != key && entries[k].dirty ensures k.relOid != c.rel {
      assert EntryOk(disk, nextNode, kept, k, entries[k]);
    }
    forall k | k in out ensures EntryOk(disk, nextNode, kept + [c], k, out[k]) {
      if k != key { EntryOkOtherRel(disk, nextNode, kept, c, k, entries[k]); }
    }
    hide EntryOk;
    forall i | 0 <= i < |kept + [c]| ensures HasDirty(out, (kept + [c])[i].rel) {
      var rel := (kept + [c])[i].rel;
      if rel == c.rel {
        assert key in out && out[key].dirty;
      } else {
        assert rel == kept[i].rel;
        var k :| k in entries && k.relOid == rel && entries[k].dirty;
        assert k in out && out[k].dirty;
      }
    }
  }

  lemma MutationMissClean(disk: map<nat, Image>, nextNode: nat, kept: seq<Change>, st: State, key: CacheKey, node: nat)
    requires EntriesOk(disk, nextNode, kept, st.entries) && !MutationHit(st, key, node)
    ensures key in st.entries ==> !st.entries[key].dirty
  {
    if key in st.entries { assert EntryOk(disk, nextNode, kept, key, st.entries[key]); }
  }

  lemma MutationLookupThinned(disk: map<nat, Image>, nextNode: nat, kept: seq<Change>, st: State, key: CacheKey,
      node: nat)
    requires EntriesOk(disk, nextNode, kept, st.entries)
    ensures Thinned(st.entries, AfterMutationLookup(st, key, node).entries)
  {
    if !MutationHit(st, key, node) { MutationMissClean(disk, nextNode, kept, st, key, node); }
    hide EntryOk;
  }

  /** No waiting change of an index means no dirty entry at its key, and the other way round. */
  lemma CleanKeyNoKept(disk: map<nat, Image>, nextNode: nat, kept: seq<Change>, entries: map<CacheKey, Entry>, rel: nat)
    requires EntriesOk(disk, nextNode, kept, entries) && KeptDirty(entries, kept) && rel in disk
    requires var key := AmKey(rel, disk[rel]); key in entries ==> !entries[key].dirty
    ensures RelIds(kept, rel) == [] && ChangesMap(kept, rel) == map[]
  {
    forall i | 0 <= i < |kept| ensures kept[i].rel != rel {
      assert HasDirty(entries, kept[i].rel);
      var k :| k in entries && k.relOid == kept[i].rel && entries[k].dirty;
      assert EntryOk(disk, nextNode, kept, k, entries[k]);
    }
    NoneOfRel(kept, rel);
  }

  lemma HitEntryReady(disk: map<nat, Image>, nextNode: nat, kept: seq<Change>, entries: map<CacheKey, Entry>, rel: nat)
    requires EntriesOk(disk, nextNode, kept, entries) && KeptDirty(entries, kept) && rel in disk
    requires var key := AmKey(rel, disk[rel]);
             key in entries && entries[key].index.Mutable?
               && (entries[key].relfilenode == disk[rel].node || entries[key].dirty)
    ensures var e := entries[AmKey(rel, disk[rel])];
            && MutableOk(e) && e.relfilenode < nextNode && e.relfilenode == disk[rel].node && Unique(disk[rel].rows)
            && e.persist.value.touchedIds == RelIds(kept, rel)
            && Picked(e.index.rows, e.persist.value.touchedIds) == ChangesMap(kept, rel)
  {
    var key := AmKey(rel, disk[rel]);
    var e := entries[key];
    assert EntryOk(disk, nextNode, kept, key, e);
    if !e.dirty {
      CleanKeyNoKept(disk, nextNode, kept, entries, rel);
      assert Picked(e.index.rows, []) == map[];
    }
  }

  lemma InsertHit(disk: map<nat, Image>, nextNode: nat, kept: seq<Change>, st: State, c: Change)
    requires EntriesOk(disk, nextNode, kept, st.entries) && OneDirtyPerRel(st.entries) && KeptDirty(st.entries, kept)
    requires c.rel in disk && c.id != 0
    requires var key := AmKey(c.rel, disk[c.rel]);
             Upsertable(st, key) && (st.entries[key].relfilenode == disk[c.rel].node || st.entries[key].dirty)
    ensures var after := AfterUpsert(st, AmKey(c.rel, disk[c.rel]), c.id, c.code).entries;
            EntriesOk(disk, nextNode, kept + [c], after) && OneDirtyPerRel(after) && KeptDirty(after, kept + [c])
  {
    var key := AmKey(c.rel, disk[c.rel]);
    var e := st.entries[key];
    HitEntryReady(disk, nextNode, kept, st.entries, c.rel);
    UpsertedOk(disk, nextNode, kept, key, e, c);
    hide EntryOk;
    PutUpserted(disk, nextNode, kept, st.entries, key, AfterUpsert(st, key, c.id, c.code).entries[key], c);
  }

  ghost predicate LoadedEntry(img: Image, sawEmpty: bool, e: Entry) {
    && e.index == Mutable(LoadedRows(img, sawEmpty)) && e.relfilenode == img.node && !e.dirty
    && e.persist == Some(LoadedState(img, sawEmpty))
  }

  lemma LoadedMutable(img: Image, sawEmpty: bool, e: Entry)
    requires LoadedEntry(img, sawEmpty, e) && Unique(LoadedRows(img, sawEmpty)) && NonzeroIds(img.rows)
    ensures MutableOk(e) && e.persist.value.touchedIds == [] && Picked(e.index.rows, []) == map[]
  {
  }

  lemma HasDirtyWithout(entries: map<CacheKey, Entry>, key: CacheKey, rel: nat)
    requires HasDirty(entries - {key}, rel)
    ensures HasDirty(entries, rel)
  {
    var k :| k in entries - {key} && k.relOid == rel && (entries - {key})[k].dirty;
    assert k in entries && entries[k].dirty;
  }

  lemma InsertIntoLoaded(disk: map<nat, Image>, nextNode: nat, kept: seq<Change>, sawEmpty: bool, mid: State, c: Change)
    requires c.rel in disk && c.id != 0 && NonzeroIds(disk[c.rel].rows) && disk[c.rel].node < nextNode
             && Unique(disk[c.rel].rows)
    requires RelIds(kept, c.rel) == [] && ChangesMap(kept, c.rel) == map[]
    requires var key := AmKey(c.rel, disk[c.rel]);
             && key in mid.entries && LoadedEntry(disk[c.rel], sawEmpty, mid.entries[key])
             && EntriesOk(disk, nextNode, kept, mid.entries - {key}) && OneDirtyPerRel(mid.entries)
             && KeptDirty(mid.entries - {key}, kept)
    ensures var after := AfterUpsert(mid, AmKey(c.rel, disk[c.rel]), c.id, c.code).entries;
            EntriesOk(disk, nextNode, kept + [c], after) && OneDirtyPerRel(after) && KeptDirty(after, kept + [c])
  {
    var img := disk[c.rel];
    var key := AmKey(c.rel, img);
    var e := mid.entries[key];
    LoadedMutable(img, sawEmpty, e);
    UpsertedOk(disk, nextNode, kept, key, e, c);
    hide EntryOk, MutableOk, LoadedEntry;
    forall i | 0 <= i < |kept| ensures HasDirty(mid.entries, kept[i].rel) {
      HasDirtyWithout(mid.entries, key, kept[i].rel);
    }
    forall k | k in mid.entries && k != key ensures EntryOk(disk, nextNode, kept, k, mid.entries[k]) {
      assert k in mid.entries - {key};
    }
    PutUpserted(disk, nextNode, kept, mid.entries, key, AfterUpsert(mid, key, c.id, c.code).entries[key], c);
  }

  lemma LoadedThinned(found: State, img: Image, sawEmpty: bool, key: CacheKey, mid: State)
    requires key !in found.entries && Evicted(AfterLoad(found, img, sawEmpty, key).entries, mid.entries)
    ensures Thinned(found.entries, mid.entries - {key})
    ensures key in mid.entries ==> LoadedEntry(img, sawEmpty, mid.entries[key])
    ensures OneDirtyPerRel(found.entries) ==> OneDirtyPerRel(mid.entries)
  {
  }

  /** An insert that had to load its copy: the other entries are fine throughout, and the loaded one
      is dirty before anybody can look at it. */
  lemma InsertLoaded(disk: map<nat, Image>, nextNode: nat, kept: seq<Change>, found: State, sawEmpty: bool,
      mid: State, c: Change)
    requires EntriesOk(disk, nextNode, kept, found.entries) && OneDirtyPerRel(found.entries)
             && KeptDirty(found.entries, kept)
    requires c.rel in disk && c.id != 0 && NonzeroIds(disk[c.rel].rows) && disk[c.rel].node < nextNode
             && Unique(disk[c.rel].rows)
    requires var key := AmKey(c.rel, disk[c.rel]);
             key !in found.entries && Evicted(AfterLoad(found, disk[c.rel], sawEmpty, key).entries, mid.entries)
    ensures var key := AmKey(c.rel, disk[c.rel]);
            var after := if Upsertable(mid, key) then AfterUpsert(mid, key, c.id, c.code).entries else mid.entries;
            var log := if Upsertable(mid, key) then kept + [c] else kept;
            EntriesOk(disk, nextNode, log, after) && OneDirtyPerRel(after) && KeptDirty(after, log)
  {
    var key := AmKey(c.rel, disk[c.rel]);
    CleanKeyNoKept(disk, nextNode, kept, found.entries, c.rel);
    LoadedThinned(found, disk[c.rel], sawEmpty, key, mid);
    ThinnedOk(disk, nextNode, kept, found.entries, mid.entries - {key});
    hide EntriesOk, OneDirtyPerRel, KeptDirty, AfterLoad, Evicted, Thinned;
    if key in mid.entries {
      InsertIntoLoaded(disk, nextNode, kept, sawEmpty, mid, c);
    } else {
      assert mid.entries - {key} == mid.entries;
    }
  }
}
