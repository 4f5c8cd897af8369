/** Where the rows in a cache come from, over whole runs: a clean copy holds what its index had on disk at
    some moment, an unflushed one that and its own transaction's waiting upserts, and a scan is handed the
    rows of one moment between its open and its fetch. */
module ProtocolHistory {
  import opened Options
  import opened IdMap
  import opened Relfile
  import opened Vacuum
  import opened Cache
  import opened Xact
  import opened Insert
  import opened Protocol
  import opened ProtocolProof
  import opened ProtocolSafety
  import opened ProtocolTheorems
  import opened ProtocolCommits

  // ---------------------------------------------------------------- the source of one entry

  predicate HoldsRows(index: Stored) {
    index.Mutable? || index.ReadOnly? || index.Ooc?
  }

  /** The copy holds exactly the rows the index has on this disk, under a label no later than they are. A
      mutable copy remembers the version of these rows, and is labelled with it too unless some row is
      tombstoned. */
  ghost predicate OnDisk(disk: map<nat, Image>, k: CacheKey, e: Entry) {
    && k.relOid in disk && HoldsRows(e.index)
    && var img := disk[k.relOid];
       && k == AmKey(k.relOid, img) && e.relfilenode == img.node && e.nRows <= img.version
       && e.index.rows == img.rows
       && (e.index.Mutable? ==>
             && e.nRows == (if img.dead == [] then img.version else -1)
             && e.persist.Some? && e.persist.value.version == img.version && e.persist.value.touchedIds == [])
  }

  /** The rows of the index, or none for an index seen empty, overlaid with some changes; `base` is the version
      they were loaded at. */
  ghost predicate Overlaid(img: Image, changes: map<Id, Code>, m: map<Id, Code>, base: int) {
    (m == ToMap(img.rows) + changes && base == img.version) || (m == changes && base == 0)
  }

  /** The copy holds the rows the index has on this disk, with the waiting upserts on top; the version it
      proposes is one further than theirs for every upsert. */
  ghost predicate OnDiskPlus(disk: map<nat, Image>, k: CacheKey, e: Entry, kept: seq<Change>) {
    && k.relOid in disk && e.index.Mutable? && e.persist.Some?
    && var img, p := disk[k.relOid], e.persist.value;
       && k == AmKey(k.relOid, img) && e.relfilenode == img.node
       && Overlaid(img, ChangesMap(kept, k.relOid), ToMap(e.index.rows), p.version - |p.touchedIds|)
  }

  ghost predicate Source(disk: map<nat, Image>, k: CacheKey, e: Entry, kept: seq<Change>) {
    if e.dirty then OnDiskPlus(disk, k, e, kept) else OnDisk(disk, k, e)
  }

  /** Whatever disk explained the entry before the step explains it after the step. */
  ghost predicate Inherits(k: CacheKey, before: Entry, was: seq<Change>, after: Entry, now: seq<Change>) {
    forall disk :: Source(disk, k, before, was) ==> Source(disk, k, after, now)
  }

  lemma SameSource(k: CacheKey, e: Entry, was: seq<Change>, now: seq<Change>, seqNo: nat)
    requires e.dirty ==> ChangesMap(now, k.relOid) == ChangesMap(was, k.relOid)
    ensures Inherits(k, e, was, e.(seqNo := seqNo), now)
  {
  }

  ghost predicate EntriesFrom(disk: map<nat, Image>, before: map<CacheKey, Entry>, was: seq<Change>,
      after: map<CacheKey, Entry>, now: seq<Change>)
  {
    forall k :: k in after ==>
      Source(disk, k, after[k], now) || (k in before && Inherits(k, before[k], was, after[k], now))
  }

  /** Entries went and use stamps changed, nothing else. */
  ghost predicate Restamped(before: map<CacheKey, Entry>, after: map<CacheKey, Entry>) {
    forall k :: k in after ==> k in before && after[k] == before[k].(seqNo := after[k].seqNo)
  }

  lemma RestampedFrom(disk: map<nat, Image>, before: map<CacheKey, Entry>, after: map<CacheKey, Entry>,
      kept: seq<Change>)
    requires Restamped(before, after)
    ensures EntriesFrom(disk, before, kept, after, kept)
  {
    forall k | k in after ensures Inherits(k, before[k], kept, after[k], kept) {
      SameSource(k, before[k], kept, kept, after[k].seqNo);
    }
  }

  // ---------------------------------------------------------------- inserts

  lemma OverlaidByNone(img: Image, sawEmpty: bool)
    ensures Overlaid(img, map[], ToMap(LoadedRows(img, sawEmpty)), LoadedVersion(img, sawEmpty))
  {
    hide ToMap;
    assert ToMap(img.rows) == ToMap(img.rows) + map[];
    assert ToMap([]) == map[] by { NothingMapped(); }
  }

  lemma NothingMapped()
    ensures ToMap([]) == map[]
  {
  }

  lemma OneMore(m: map<Id, Code>, changes: map<Id, Code>, id: Id, code: Code)
    ensures (m + changes)[id := code] == m + changes[id := code]
  {
  }

  lemma OverlaidByOneMore(img: Image, changes: map<Id, Code>, m: map<Id, Code>, base: int, id: Id, code: Code)
    requires Overlaid(img, changes, m, base)
    ensures Overlaid(img, changes[id := code], m[id := code], base)
  {
    hide ToMap;
    OneMore(ToMap(img.rows), changes, id, code);
  }

  /** An upsert on top of a copy of an index's rows. */
  lemma UpsertedSource(disk: map<nat, Image>, k: CacheKey, e: Entry, was: seq<Change>, c: Change)
    requires MutableOk(e) && c.rel == k.relOid && Source(disk, k, e, was)
    requires !e.dirty ==> ChangesMap(was, c.rel) == map[]
    ensures Source(disk, k, Upserted(e, c.id, c.code), was + [c])
  {
    assert Unique(e.index.rows);
    UpsertFacts(e.index.rows, c.id, c.code);
    LogAppend(was, c, c.rel);
    var img, changes := disk[k.relOid], ChangesMap(was, c.rel);
    hide Upsert, ChangesMap, ToMap, AmKey, Unique, MutableOk, Overlaid, Has;
    if !e.dirty { OverlaidByNone(img, false); }
    var p := e.persist.value;
    OverlaidByOneMore(img, changes, ToMap(e.index.rows), p.version - |p.touchedIds|, c.id, c.code);
  }

  /** The entries after an upsert at `key`, for a transaction whose other unflushed entries are of other indexes. */
  lemma PutFrom(disk: map<nat, Image>, before: map<CacheKey, Entry>, entries: map<CacheKey, Entry>, was: seq<Change>,
      key: CacheKey, e: Entry, c: Change)
    requires EntriesFrom(disk, before, was, entries - {key}, was)
    requires forall k :: k in entries && k != key && entries[k].dirty ==> k.relOid != c.rel
    requires Source(disk, key, e, was + [c]) || (key in before && Inherits(key, before[key], was, e, was + [c]))
    ensures EntriesFrom(disk, before, was, entries[key := e], was + [c])
  {
    hide Source;
    forall k | k in entries && k != key
      ensures Source(disk, k, entries[k], was + [c])
              || (k in before && Inherits(k, before[k], was, entries[k], was + [c]))
    {
      assert k in entries - {key} && (entries - {key})[k] == entries[k];
      OtherSource(k, entries[k], was, c);
      if k in before && Inherits(k, before[k], was, entries[k], was) {
        InheritsOn(k, before[k], was, entries[k], was, entries[k], was + [c]);
      }
    }
  }

  /** An upsert to another index leaves what an entry holds explained. */
  lemma OtherSource(k: CacheKey, e: Entry, was: seq<Change>, c: Change)
    requires e.dirty ==> k.relOid != c.rel
    ensures Inherits(k, e, was, e, was + [c])
  {
    LogAppend(was, c, k.relOid);
    SameSource(k, e, was, was + [c], e.seqNo);
  }

  lemma InheritsOn(k: CacheKey, d: Entry, l: seq<Change>, e: Entry, m: seq<Change>, f: Entry, n: seq<Change>)
    requires Inherits(k, d, l, e, m) && Inherits(k, e, m, f, n)
    ensures Inherits(k, d, l, f, n)
  {
    hide Source;
  }

  /** Where a transaction has one unflushed entry of an index, the others are clean. */
  lemma OthersOfRelClean(disk: map<nat, Image>, nextNode: nat, kept: seq<Change>, entries: map<CacheKey, Entry>,
      key: CacheKey, rel: nat)
    requires EntriesOk(disk, nextNode, kept, entries - {key}) && rel in disk && key == AmKey(rel, disk[rel])
    ensures forall k :: k in entries && k != key && entries[k].dirty ==> k.relOid != rel
  {
    forall k | k in entries && k != key && entries[k].dirty ensures k.relOid != rel {
      assert k in entries - {key} && EntryOk(disk, nextNode, kept, k, (entries - {key})[k]);
    }
  }

  lemma HitSource(k: CacheKey, e: Entry, was: seq<Change>, c: Change, seqNo: nat)
    requires MutableOk(e) && c.rel == k.relOid && (!e.dirty ==> ChangesMap(was, c.rel) == map[])
    ensures Inherits(k, e, was, Upserted(e.(seqNo := seqNo), c.id, c.code), was + [c])
  {
    SameSource(k, e, was, was, seqNo);
    forall disk | Source(disk, k, e, was)
      ensures Source(disk, k, Upserted(e.(seqNo := seqNo), c.id, c.code), was + [c])
    {
      UpsertedSource(disk, k, e.(seqNo := seqNo), was, c);
    }
  }

  lemma InsertHitFrom(disk: map<nat, Image>, nextNode: nat, x: Backend, mid: State, c: Change)
    requires BackendOk(disk, nextNode, x) && x.phase.Running? && c.rel in disk
    requires var key := AmKey(c.rel, disk[c.rel]);
             MutationHit(x.cache, key, disk[c.rel].node) && mid == Touch(x.cache, key) && Upsertable(mid, key)
    ensures var after := AfterUpsert(mid, AmKey(c.rel, disk[c.rel]), c.id, c.code);
            EntriesFrom(disk, x.cache.entries, x.kept, after.entries, x.kept + [c])
  {
    var entries, key := x.cache.entries, AmKey(c.rel, disk[c.rel]);
    assert EntryOk(disk, nextNode, x.kept, key, entries[key]);
    if !entries[key].dirty { CleanKeyNoKept(disk, nextNode, x.kept, entries, c.rel); }
    OthersOfRelClean(disk, nextNode, x.kept, entries, key, c.rel);
    hide EntryOk, EntriesOk, Upsert, ChangesMap, RelIds, Has;
    HitSource(key, entries[key], x.kept, c, mid.entries[key].seqNo);
    RestampedFrom(disk, entries, mid.entries - {key}, x.kept);
    hide MutableOk, Inherits;
    PutFrom(disk, entries, mid.entries, x.kept, key, Upserted(mid.entries[key], c.id, c.code), c);
  }

  /** A copy just loaded, or made empty for an index seen empty, and upserted into. */
  lemma LoadedSource(disk: map<nat, Image>, kept: seq<Change>, sawEmpty: bool, e: Entry, c: Change)
    requires c.rel in disk && LoadedEntry(disk[c.rel], sawEmpty, e) && Unique(LoadedRows(disk[c.rel], sawEmpty))
    requires ChangesMap(kept, c.rel) == map[]
    ensures Source(disk, AmKey(c.rel, disk[c.rel]), Upserted(e, c.id, c.code), kept + [c])
  {
    var rows := LoadedRows(disk[c.rel], sawEmpty);
    UpsertFacts(rows, c.id, c.code);
    LogAppend(kept, c, c.rel);
    OverlaidByNone(disk[c.rel], sawEmpty);
    hide Upsert, ChangesMap, ToMap, Unique, LoadedRows, Has, Overlaid;
    OverlaidByOneMore(disk[c.rel], map[], ToMap(rows), LoadedVersion(disk[c.rel], sawEmpty), c.id, c.code);
  }

  lemma InsertLoadedFrom(disk: map<nat, Image>, nextNode: nat, kept: seq<Change>, found: State, sawEmpty: bool,
      mid: State, c: Change)
    requires EntriesOk(disk, nextNode, kept, found.entries) && OneDirtyPerRel(found.entries)
    requires KeptDirty(found.entries, kept) && c.rel in disk && Unique(LoadedRows(disk[c.rel], sawEmpty))
    requires var key := AmKey(c.rel, disk[c.rel]);
             key !in found.entries && Evicted(AfterLoad(found, disk[c.rel], sawEmpty, key).entries, mid.entries)
    ensures var key := AmKey(c.rel, disk[c.rel]);
            if Upsertable(mid, key)
            then EntriesFrom(disk, found.entries, kept, AfterUpsert(mid, key, c.id, c.code).entries, kept + [c])
            else EntriesFrom(disk, found.entries, kept, mid.entries, kept)
  {
    var img := disk[c.rel];
    var key := AmKey(c.rel, img);
    CleanKeyNoKept(disk, nextNode, kept, found.entries, c.rel);
    LoadedThinned(found, img, sawEmpty, key, mid);
    RestampedFrom(disk, found.entries, mid.entries - {key}, kept);
    hide EntryOk, Upsert, ChangesMap, RelIds, Has, Unique, LoadedRows, ToMap, AfterLoad, Evicted;
    if key in mid.entries {
      ThinnedOk(disk, nextNode, kept, found.entries, mid.entries - {key});
      OthersOfRelClean(disk, nextNode, kept, mid.entries, key, c.rel);
      LoadedSource(disk, kept, sawEmpty, mid.entries[key], c);
      PutFrom(disk, found.entries, mid.entries, kept, key, Upserted(mid.entries[key], c.id, c.code), c);
    } else {
      assert mid.entries - {key} == mid.entries;
    }
  }

  lemma FromSmaller(disk: map<nat, Image>, all: map<CacheKey, Entry>, some: map<CacheKey, Entry>, was: seq<Change>,
      after: map<CacheKey, Entry>, now: seq<Change>)
    requires (forall k :: k in some ==> k in all && some[k] == all[k]) && EntriesFrom(disk, some, was, after, now)
    ensures EntriesFrom(disk, all, was, after, now)
  {
    hide Source, Inherits;
  }

  lemma InsertFrom(disk: map<nat, Image>, nextNode: nat, x: Backend, sawEmpty: bool, capMb: int, mid: State,
      after: State, c: Change, r: InsertResult)
    requires BackendOk(disk, nextNode, x) && x.phase.Running? && c.rel in disk
    requires InsertStep(x.cache, disk[c.rel], sawEmpty, capMb, AmKey(c.rel, disk[c.rel]), c.id, c.code, mid, after, r)
    ensures EntriesFrom(disk, x.cache.entries, x.kept, after.entries, if r.Inserted? then x.kept + [c] else x.kept)
  {
    var img := disk[c.rel];
    var key := AmKey(c.rel, img);
    var found := AfterMutationLookup(x.cache, key, img.node);
    MutationLookupThinned(disk, nextNode, x.kept, x.cache, key, img.node);
    hide EntryOk, AfterLoad, Evicted, EntriesOk, AfterUpsert, EntriesFrom, OneDirtyPerRel, Unique;
    if MutationHit(x.cache, key, img.node) {
      InsertHitFrom(disk, nextNode, x, mid, c);
    } else if r.LoadFailed? {
      RestampedFrom(disk, x.cache.entries, found.entries, x.kept);
    } else {
      ThinnedOk(disk, nextNode, x.kept, x.cache.entries, found.entries);
      InsertLoadedFrom(disk, nextNode, x.kept, found, sawEmpty, mid, c);
      FromSmaller(disk, x.cache.entries, found.entries, x.kept, after.entries,
        if r.Inserted? then x.kept + [c] else x.kept);
    }
  }

  // ---------------------------------------------------------------- the other steps

  lemma ScanFetchFrom(s: Sys, t: Sys, b: nat, outOfCore: bool, bytes: nat, capMb: int)
    requires Inv(s) && ScanFetchNext(s, t, b, outOfCore, bytes, capMb)
    ensures b < |s.backends| && b < |t.backends| && StepExplained(s, t, b, s.disk)
  {
    var x, y := s.backends[b], t.backends[b];
    var img := s.disk[x.scan.rel];
    var key := AmKey(x.scan.rel, img);
    assert BackendOk(s.disk, s.nextNode, x);
    hide EntriesOk, OneDirtyPerRel, PhaseOk, LogsOk, DiskOk;
    if ScanHit(x.cache, key, x.scan.node, x.scan.version) {
      RestampedFrom(s.disk, x.cache.entries, y.cache.entries, x.kept);
    } else {
      RestampedFrom(s.disk, x.cache.entries, y.cache.entries - {key}, x.kept);
      if key in y.cache.entries { assert OnDisk(s.disk, key, y.cache.entries[key]); }
      WithOneMore(s.disk, x.cache.entries, y.cache.entries, key, x.kept);
    }
  }

  lemma WithOneMore(disk: map<nat, Image>, before: map<CacheKey, Entry>, after: map<CacheKey, Entry>, key: CacheKey,
      kept: seq<Change>)
    requires EntriesFrom(disk, before, kept, after - {key}, kept)
    requires key in after ==> Source(disk, key, after[key], kept)
    ensures EntriesFrom(disk, before, kept, after, kept)
  {
    hide Source, Inherits;
    forall k | k in after && k != key ensures k in after - {key} && (after - {key})[k] == after[k] {}
  }

  /** A copy kept by a flush is what the flush wrote. */
  lemma SettledOnDisk(disk: map<nat, Image>, nextNode: nat, kept: seq<Change>, k: CacheKey, e: Entry, maxPct: int)
    requires DiskOk(disk, nextNode) && EntryOk(disk, nextNode, kept, k, e) && Flushable(e)
    requires FlushGoesThrough(disk, k, e, maxPct) && Settled(e, OutcomeOf(k, e, disk, maxPct)).Some?
    ensures OnDisk(DiskAfterFlush(disk, k, e, maxPct), k, Settled(e, OutcomeOf(k, e, disk, maxPct)).value)
  {
    FlushOneAdvances(disk, nextNode, kept, k, e, maxPct);
    assert Advanced(disk[k.relOid], DiskAfterFlush(disk, k, e, maxPct)[k.relOid]);
  }

  lemma FlushFrom(s: Sys, t: Sys, b: nat, k: CacheKey, maxPct: int)
    requires Inv(s) && FlushOneNext(s, t, b, k, maxPct)
    ensures b < |s.backends| && b < |t.backends| && StepExplained(s, t, b, t.disk)
  {
    var x, y := s.backends[b], t.backends[b];
    var e := x.cache.entries[k];
    var outcome := OutcomeOf(k, e, s.disk, maxPct);
    assert BackendOk(s.disk, s.nextNode, x);
    assert EntryOk(s.disk, s.nextNode, x.kept, k, e);
    if Settled(e, outcome).Some? { SettledOnDisk(s.disk, s.nextNode, x.kept, k, e, maxPct); }
    assert k in y.cache.entries ==> Source(t.disk, k, y.cache.entries[k], x.kept);
    hide EntryOk, EntriesOk, OnDisk, DiskAfterFlush, OutcomeOf, FlushGoesThrough, OneDirtyPerRel, DiskOk, Source;
    forall j | j != k
      ensures (j in y.cache.entries <==> j in x.cache.entries)
              && (j in y.cache.entries ==> y.cache.entries[j] == x.cache.entries[j])
    {
      OthersUntouched(x.cache, k, outcome, j);
    }
    hide AfterClearDirty;
    RestampedFrom(t.disk, x.cache.entries, y.cache.entries - {k}, x.kept);
    WithOneMore(t.disk, x.cache.entries, y.cache.entries, k, x.kept);
  }

  /** Where nothing is unflushed the log does not matter. */
  lemma CleanFrom(disk: map<nat, Image>, before: map<CacheKey, Entry>, was: seq<Change>, after: map<CacheKey, Entry>,
      now: seq<Change>)
    requires NoDirty(after) && forall k :: k in after ==> k in before && after[k] == before[k]
    ensures EntriesFrom(disk, before, was, after, now)
  {
    forall k | k in after ensures Inherits(k, before[k], was, after[k], now) {
      SameSource(k, before[k], was, now, before[k].seqNo);
    }
  }

  /** The entries of backend `b` are explained by this disk, or as they were already. */
  ghost predicate StepExplained(s: Sys, t: Sys, b: nat, disk: map<nat, Image>)
    requires b < |s.backends| && b < |t.backends|
  {
    var x, y := s.backends[b], t.backends[b];
    EntriesFrom(disk, x.cache.entries, x.kept, y.cache.entries, y.kept)
  }

  /** A rollback leaves only clean entries, as they were. */
  lemma RolledBackCleans(x: Backend)
    requires LogsOk(x) && x.phase.Running?
    ensures var after := RolledBack(x).entries;
            NoDirty(after) && forall k :: k in after ==> k in x.cache.entries && after[k] == x.cache.entries[k]
  {
  }

  lemma EndCleans(s: Sys, t: Sys, step: Step, b: nat)
    requires b < |s.backends| && BackendOk(s.disk, s.nextNode, s.backends[b]) && Next(s, t, step) && b < |t.backends|
    requires step == CommitEnd(b) || step == Abort(b) || step == InvalidateAll(b) || (step.AbortSub? && step.b == b)
    ensures var before, after := s.backends[b].cache.entries, t.backends[b].cache.entries;
            NoDirty(after) && forall k :: k in after ==> k in before && after[k] == before[k]
  {
    hide EntriesOk, OneDirtyPerRel, ScanOk, RolledBack, CommitEndNext, LogsOk, PhaseOk, NoDirty;
    if step.CommitEnd? {
      CommitEndCleans(s, t, b);
    } else if step.InvalidateAll? {
      NothingDirty();
    } else {
      RolledBackCleans(s.backends[b]);
    }
  }

  lemma NothingDirty()
    ensures NoDirty(map[])
  {
  }

  lemma CommitEndCleans(s: Sys, t: Sys, b: nat)
    requires CommitEndNext(s, t, b) && PhaseOk(s.backends[b]) && LogsOk(s.backends[b])
    ensures t.backends[b].cache == s.backends[b].cache && NoDirty(t.backends[b].cache.entries)
  {
  }

  lemma EndFrom(s: Sys, t: Sys, step: Step, b: nat)
    requires Inv(s) && Next(s, t, step) && b < |s.backends| && b < |t.backends|
    requires step == CommitEnd(b) || step == Abort(b) || step == InvalidateAll(b) || (step.AbortSub? && step.b == b)
    ensures StepExplained(s, t, b, s.disk)
  {
    hide Next, BackendOk, NoDirty, EntriesFrom, DiskOk;
    var x, y := s.backends[b], t.backends[b];
    assert BackendOk(s.disk, s.nextNode, x);
    EndCleans(s, t, step, b);
    CleanFrom(s.disk, x.cache.entries, x.kept, y.cache.entries, y.kept);
  }

  lemma SameCacheFrom(s: Sys, t: Sys, b: nat)
    requires b < |s.backends| && b < |t.backends|
    requires t.backends[b].cache == s.backends[b].cache && t.backends[b].kept == s.backends[b].kept
    ensures StepExplained(s, t, b, s.disk)
  {
    RestampedFrom(s.disk, s.backends[b].cache.entries, t.backends[b].cache.entries, s.backends[b].kept);
  }

  lemma InsertExplained(s: Sys, t: Sys, b: nat, rel: nat, id: Id, code: Code, sawEmpty: bool, capMb: int, mid: State,
      r: InsertResult)
    requires Inv(s) && InsertNext(s, t, b, rel, id, code, sawEmpty, capMb, mid, r)
    ensures b < |s.backends| && b < |t.backends| && StepExplained(s, t, b, s.disk)
  {
    hide InsertStep, EntriesFrom, BackendOk;
    assert BackendOk(s.disk, s.nextNode, s.backends[b]);
    InsertFrom(s.disk, s.nextNode, s.backends[b], sawEmpty, capMb, mid, t.backends[b].cache, Change(rel, id, code), r);
  }

  /** One step: every entry of a cache is explained by the disk before or after it, or as it was already. */
  lemma StepFrom(s: Sys, t: Sys, step: Step, b: nat)
    requires Inv(s) && Next(s, t, step) && b < |s.backends| && b < |t.backends|
    ensures StepExplained(s, t, b, s.disk) || StepExplained(s, t, b, t.disk)
  {
    if Actor(step) != Some(b) {
      hide *;
      OthersLeaveBackend(s, t, step, b);
      SameCacheFrom(s, t, b);
    } else {
      hide Inv, EntriesFrom, InsertNext, ScanFetchNext, FlushOneNext, CommitEndNext, AbortNext, AbortSubNext;
      hide InvalidateAllNext, AllValid, StepExplained;
      match step {
        case InsertRow(_, rel, id, code, sawEmpty, capMb, mid, r) =>
          InsertExplained(s, t, b, rel, id, code, sawEmpty, capMb, mid, r);
        case ScanFetch(_, outOfCore, bytes, capMb) => ScanFetchFrom(s, t, b, outOfCore, bytes, capMb);
        case FlushOne(_, k, maxPct) => FlushFrom(s, t, b, k, maxPct);
        case ScanOpen(_, _) => SameCacheFrom(s, t, b);
        case CommitBegin(_) => SameCacheFrom(s, t, b);
        case _ => EndFrom(s, t, step, b);
      }
    }
  }

  // ---------------------------------------------------------------- over runs

  /** In every run, an entry of a cache is explained by the disk as it was at some moment. */
  lemma {:induction false} SourceInRun(states: seq<Sys>, steps: seq<Step>, b: nat, n: nat, k: CacheKey)
    returns (i: nat)
    requires IsRun(states, steps) && n <= |steps| && b < |states[0].backends| && b < |states[n].backends|
    requires k in states[n].backends[b].cache.entries
    ensures i <= n && Source(states[i].disk, k, states[n].backends[b].cache.entries[k], states[n].backends[b].kept)
    decreases n
  {
    if n > 0 {
      hide Next, Init;
      var s, t := states[n - 1], states[n];
      BackendThere(states, steps, b, n - 1);
      RunKeepsInvariant(states, steps, n - 1);
      assert Next(s, t, steps[n - 1]);
      StepFrom(s, t, steps[n - 1], b);
      hide Inv, Source;
      var x, y := s.backends[b], t.backends[b];
      if Source(s.disk, k, y.cache.entries[k], y.kept) { return n - 1; }
      if Source(t.disk, k, y.cache.entries[k], y.kept) { return n; }
      i := SourceInRun(states, steps, b, n - 1, k);
      assert Inherits(k, x.cache.entries[k], x.kept, y.cache.entries[k], y.kept);
    }
  }

  /** Clean copies never hold uncommitted rows: whatever its label, a clean copy in a reachable state holds
      exactly the rows its index had on disk at some moment of the run, also where a transaction that
      upserted into it was rolled back, and where its label is old or hides it from scans. */
  lemma CleanWasOnDisk(states: seq<Sys>, steps: seq<Step>, b: nat, n: nat, k: CacheKey)
    requires IsRun(states, steps) && n <= |steps| && b < |states[0].backends| && b < |states[n].backends|
    requires k in states[n].backends[b].cache.entries && !states[n].backends[b].cache.entries[k].dirty
    ensures exists i :: 0 <= i <= n && OnDisk(states[i].disk, k, states[n].backends[b].cache.entries[k])
  {
    hide IsRun, OnDisk;
    var i := SourceInRun(states, steps, b, n, k);
  }

  /** An unflushed copy holds what its index had on disk at some moment and on top exactly the upserts of
      its own transaction that wait to be committed. */
  lemma UnflushedIsOwn(states: seq<Sys>, steps: seq<Step>, b: nat, n: nat, k: CacheKey)
    requires IsRun(states, steps) && n <= |steps| && b < |states[0].backends| && b < |states[n].backends|
    requires k in states[n].backends[b].cache.entries && states[n].backends[b].cache.entries[k].dirty
    ensures exists i :: 0 <= i <= n && OnDiskPlus(states[i].disk, k, states[n].backends[b].cache.entries[k],
                                                  states[n].backends[b].kept)
  {
    hide IsRun, OnDiskPlus;
    var i := SourceInRun(states, steps, b, n, k);
  }

  // ---------------------------------------------------------------- the history of one index

  /** The later image is the same, or a later version of it, or of a later relfilenode. */
  ghost predicate Follows(before: Image, after: Image) {
    before.node <= after.node && (before.node == after.node ==> after == before || before.version < after.version)
  }

  lemma FollowsStep(s: Sys, t: Sys, step: Step, rel: nat)
    requires Inv(s) && Next(s, t, step) && rel in t.disk
    ensures rel in s.disk && Follows(s.disk[rel], t.disk[rel])
  {
    hide BackendOk, Healthy, InsertNext, ScanFetchNext, AbortNext, AbortSubNext, FlushOneNext, Unlocked, VacuumImage;
    match step {
      case InsertRow(b, r, id, code, sawEmpty, capMb, mid, res) =>
        InsertQuiet(s, t, b, r, id, code, sawEmpty, capMb, mid, res);
      case ScanFetch(b, outOfCore, bytes, capMb) => ScanQuiet(s, t, b, outOfCore, bytes, capMb);
      case Abort(b) => RollbackQuiet(s, t, b, 0);
      case AbortSub(b, mark) => RollbackQuiet(s, t, b, mark);
      case FlushOne(b, k, maxPct) => FlushFollows(s, t, b, k, maxPct, rel);
      case VacuumRel(r, gone) => VacuumAdvances(s.disk[r], gone);
      case _ =>
    }
  }

  lemma FlushFollows(s: Sys, t: Sys, b: nat, k: CacheKey, maxPct: int, rel: nat)
    requires Inv(s) && FlushOneNext(s, t, b, k, maxPct) && rel in t.disk
    ensures rel in s.disk && Follows(s.disk[rel], t.disk[rel])
  {
    var x := s.backends[b];
    assert BackendOk(s.disk, s.nextNode, x);
    assert EntryOk(s.disk, s.nextNode, x.kept, k, x.cache.entries[k]);
    FlushOneAdvances(s.disk, s.nextNode, x.kept, k, x.cache.entries[k], maxPct);
    hide EntryOk, BackendOk, DiskAfterFlush, FlushGoesThrough, Healthy;
    assert Advanced(s.disk[rel], t.disk[rel]);
  }

  lemma {:induction false} FollowsInRun(states: seq<Sys>, steps: seq<Step>, rel: nat, i: nat, j: nat)
    requires IsRun(states, steps) && i <= j <= |steps| && rel in states[j].disk
    ensures rel in states[i].disk && Follows(states[i].disk[rel], states[j].disk[rel])
    decreases j - i
  {
    hide Next, Init, Inv;
    if i < j {
      RunKeepsInvariant(states, steps, j - 1);
      assert Next(states[j - 1], states[j], steps[j - 1]);
      FollowsStep(states[j - 1], states[j], steps[j - 1], rel);
      FollowsInRun(states, steps, rel, i, j - 1);
    }
  }

  // ---------------------------------------------------------------- what a scan is handed

  /** Steps that begin or end a scan of backend `b`. */
  predicate ScanStep(step: Step, b: nat) {
    match step
    case ScanOpen(c, _) => c == b
    case ScanFetch(c, _, _, _) => c == b
    case Abort(c) => c == b
    case AbortSub(c, _) => c == b
    case _ => false
  }

  lemma ScanStays(s: Sys, t: Sys, step: Step, b: nat)
    requires Next(s, t, step) && b < |s.backends| && b < |t.backends| && !ScanStep(step, b)
    ensures t.backends[b].scan == s.backends[b].scan
  {
    hide InsertStep, AllValid, FlushGoesThrough, DiskAfterFlush, AfterClearDirty, OutcomeOf, AfterInstall, Evicted,
         AfterScanLookup, ScanHit, VacuumImage, Healthy, Unlocked, RolledBack;
  }

  lemma ScanChanges(s: Sys, t: Sys, step: Step, b: nat)
    requires Next(s, t, step) && b < |s.backends| && b < |t.backends| && ScanStep(step, b)
    requires t.backends[b].scan.Opened?
    ensures var scan := t.backends[b].scan;
            step == ScanOpen(b, scan.rel) && scan.rel in s.disk
              && scan.node == s.disk[scan.rel].node && scan.version == s.disk[scan.rel].version
  {
    hide AfterInstall, Evicted, AfterScanLookup, ScanHit, RolledBack;
  }

  /** An open scan was opened at some step, and remembers the label its index had then. */
  lemma {:induction false} OpenedAt(states: seq<Sys>, steps: seq<Step>, b: nat, n: nat) returns (o: nat)
    requires IsRun(states, steps) && n <= |steps| && b < |states[0].backends| && b < |states[n].backends|
    requires states[n].backends[b].scan.Opened?
    ensures var scan := states[n].backends[b].scan;
            && o < n && steps[o] == ScanOpen(b, scan.rel) && scan.rel in states[o].disk
            && scan.node == states[o].disk[scan.rel].node && scan.version == states[o].disk[scan.rel].version
    ensures forall m :: o < m < n ==> !ScanStep(steps[m], b)
    decreases n
  {
    hide Next;
    if n > 0 {
      BackendThere(states, steps, b, n - 1);
      assert Next(states[n - 1], states[n], steps[n - 1]);
      if ScanStep(steps[n - 1], b) {
        ScanChanges(states[n - 1], states[n], steps[n - 1], b);
        return n - 1;
      }
      ScanStays(states[n - 1], states[n], steps[n - 1], b);
      o := OpenedAt(states, steps, b, n - 1);
    }
  }

  /** The backend has nothing unflushed under the key. */
  predicate CleanAt(st: State, key: CacheKey) {
    key in st.entries ==> !st.entries[key].dirty
  }

  /** The handle a fetch returns. */
  function Handed(s: Sys, b: nat, outOfCore: bool): Stored
    requires b < |s.backends| && s.backends[b].scan.Opened? && s.backends[b].scan.rel in s.disk
  {
    var scan, st := s.backends[b].scan, s.backends[b].cache;
    var key := AmKey(scan.rel, s.disk[scan.rel]);
    if ScanHit(st, key, scan.node, scan.version) then st.entries[key].index
    else LoadedCopy(s.disk[scan.rel], outOfCore)
  }

  /** A copy labelled with the version read at an open, taken before that open, still is what the open saw. */
  lemma LabelledCopyStands(states: seq<Sys>, steps: seq<Step>, k: CacheKey, e: Entry, i: nat, o: nat)
    requires IsRun(states, steps) && i <= o <= |steps| && k.relOid in states[o].disk
    requires OnDisk(states[i].disk, k, e)
    requires Fresh(e, states[o].disk[k.relOid].node, states[o].disk[k.relOid].version)
    ensures states[i].disk[k.relOid] == states[o].disk[k.relOid]
  {
    FollowsInRun(states, steps, k.relOid, i, o);
  }

  /** Every scan of a backend with nothing unflushed is handed the rows its index had on disk at one moment
      between the scan's open and its fetch, whatever was cached and whatever others wrote meanwhile. */
  lemma ScanSeesOneMoment(states: seq<Sys>, steps: seq<Step>, n: nat) returns (o: nat, i: nat)
    requires IsRun(states, steps) && n < |steps| && steps[n].ScanFetch? && steps[n].b < |states[0].backends|
    ensures var b := steps[n].b;
            && b < |states[n].backends| && states[n].backends[b].scan.Opened?
            && var rel := states[n].backends[b].scan.rel;
               && rel in states[n].disk && o < n && steps[o] == ScanOpen(b, rel)
               && (forall m :: o < m < n ==> !ScanStep(steps[m], b))
               && (CleanAt(states[n].backends[b].cache, AmKey(rel, states[n].disk[rel])) ==>
                     && o <= i <= n && rel in states[i].disk
                     && var handle := Handed(states[n], b, steps[n].outOfCore);
                        && HoldsRows(handle) && handle.rows == states[i].disk[rel].rows
                        && (handle.Mutable? ==> states[i].disk[rel].dead == []))
  {
    var b := steps[n].b;
    assert Next(states[n], states[n + 1], steps[n]);
    FetchReady(states[n], states[n + 1], b, steps[n].outOfCore, steps[n].bytes, steps[n].capMb);
    hide Next, Init, OnDisk;
    var scan := states[n].backends[b].scan;
    o := OpenedAt(states, steps, b, n);
    i := n;
    var key := AmKey(scan.rel, states[n].disk[scan.rel]);
    if CleanAt(states[n].backends[b].cache, key) && ScanHit(states[n].backends[b].cache, key, scan.node, scan.version) {
      var e := states[n].backends[b].cache.entries[key];
      i := SourceInRun(states, steps, b, n, key);
      CopyHolds(states[i].disk, key, e);
      if i < o {
        LabelledCopyStands(states, steps, key, e, i, o);
        i := o;
      }
    }
  }

  lemma FetchReady(s: Sys, t: Sys, b: nat, outOfCore: bool, bytes: nat, capMb: int)
    requires ScanFetchNext(s, t, b, outOfCore, bytes, capMb)
    ensures b < |s.backends| && s.backends[b].scan.Opened? && s.backends[b].scan.rel in s.disk
  {
    hide AfterScanLookup, AfterInstall, Evicted, ScanHit;
  }

  lemma CopyHolds(disk: map<nat, Image>, k: CacheKey, e: Entry)
    requires OnDisk(disk, k, e)
    ensures k.relOid in disk && HoldsRows(e.index) && e.index.rows == disk[k.relOid].rows
    ensures e.index.Mutable? && e.nRows >= 0 ==> disk[k.relOid].dead == []
  {
  }

  /** A scan of a backend with unflushed upserts to the index is handed what the index had on disk at some
      moment with exactly those upserts on top. */
  lemma ScanSeesOwnUpserts(states: seq<Sys>, steps: seq<Step>, n: nat)
    requires IsRun(states, steps) && n < |steps| && steps[n].ScanFetch? && steps[n].b < |states[0].backends|
    ensures var b := steps[n].b;
            && b < |states[n].backends| && states[n].backends[b].scan.Opened?
            && var rel := states[n].backends[b].scan.rel;
               && rel in states[n].disk
               && (!CleanAt(states[n].backends[b].cache, AmKey(rel, states[n].disk[rel])) ==>
                     var handle, own := Handed(states[n], b, steps[n].outOfCore), states[n].backends[b].kept;
                     handle.Mutable? && exists i, base ::
                       && 0 <= i <= n && rel in states[i].disk
                       && Overlaid(states[i].disk[rel], ChangesMap(own, rel), ToMap(handle.rows), base))
  {
    var b := steps[n].b;
    assert Next(states[n], states[n + 1], steps[n]);
    FetchReady(states[n], states[n + 1], b, steps[n].outOfCore, steps[n].bytes, steps[n].capMb);
    hide Next, Init, Overlaid;
    var scan := states[n].backends[b].scan;
    var key := AmKey(scan.rel, states[n].disk[scan.rel]);
    if !CleanAt(states[n].backends[b].cache, key) {
      var i := SourceInRun(states, steps, b, n, key);
    }
  }

  // ---------------------------------------------------------------- what the cache saves

  /** After its flush a copy stays cached exactly when it equals the image written. The next insert then
      reuses it, and the next scan does unless the image has tombstones. */
  lemma FlushedCopyStaysIff(s: Sys, t: Sys, b: nat, k: CacheKey, maxPct: int)
    requires Inv(s) && FlushOneNext(s, t, b, k, maxPct) && k.relOid in s.disk
    ensures k.relOid in t.disk && k in s.backends[b].cache.entries
    ensures var st, img := t.backends[b].cache, t.disk[k.relOid];
            && (k in st.entries <==> img.rows == s.backends[b].cache.entries[k].index.rows)
            && (MutationHit(st, k, img.node) <==> k in st.entries)
            && (ScanHit(st, k, img.node, img.version) <==> k in st.entries && img.dead == [])
  {
    var x := s.backends[b];
    var e := x.cache.entries[k];
    assert BackendOk(s.disk, s.nextNode, x);
    assert EntryOk(s.disk, s.nextNode, x.kept, k, e);
    FlushStamps(s.disk[k.relOid], e.index.rows, e.persist.value.touchedIds, e.persist.value.version, maxPct);
    hide Flush, EntriesOk, OneDirtyPerRel, DiskOk;
  }

  /** After a fetch the index, unless the cap evicted it, is found under the label the scan read. */
  lemma FetchedIsFound(s: Sys, t: Sys, b: nat, outOfCore: bool, bytes: nat, capMb: int)
    requires ScanFetchNext(s, t, b, outOfCore, bytes, capMb)
    ensures b < |s.backends| && s.backends[b].scan.Opened? && s.backends[b].scan.rel in s.disk
    ensures var scan, st := s.backends[b].scan, t.backends[b].cache;
            var key := AmKey(scan.rel, s.disk[scan.rel]);
            key in st.entries ==> ScanHit(st, key, scan.node, scan.version)
  {
  }

  /** After an insert the backend's next insert and its scans find the copy, whatever the version on disk. */
  lemma InsertedIsFound(s: Sys, t: Sys, b: nat, rel: nat, id: Id, code: Code, sawEmpty: bool, capMb: int, mid: State,
      r: InsertResult, version: int)
    requires Inv(s) && InsertNext(s, t, b, rel, id, code, sawEmpty, capMb, mid, r) && r.Inserted?
    ensures var key, st := AmKey(rel, s.disk[rel]), t.backends[b].cache;
            && MutationHit(st, key, s.disk[rel].node) && ScanHit(st, key, s.disk[rel].node, version)
            && Has(st.entries[key].index.rows, id)
  {
    hide Upsert, Has, Unique, OneDirtyPerRel, DiskOk, PhaseOk, LogsOk, ScanOk, Healthy, Capped;
    var key, x := AmKey(rel, s.disk[rel]), s.backends[b];
    assert BackendOk(s.disk, s.nextNode, x);
    if key in x.cache.entries { assert EntryOk(s.disk, s.nextNode, x.kept, key, x.cache.entries[key]); }
    LoadedKept(AfterLoad(AfterMutationLookup(x.cache, key, s.disk[rel].node), s.disk[rel], sawEmpty, key), mid, capMb);
    UpsertedHas(mid.entries[key].index.rows, id, code);
  }

  lemma LoadedKept(before: State, mid: State, capMb: int)
    ensures Capped(before.entries, mid.entries, capMb) ==>
              forall k :: k in mid.entries ==> k in before.entries && mid.entries[k] == before.entries[k]
  {
    hide CapEnforced;
  }

  lemma UpsertedHas(rows: seq<Row>, id: Id, code: Code)
    ensures Has(Upsert(rows, id, code), id)
  {
    var out := Upsert(rows, id, code);
    assert out[|out| - 1].id == id;
    SlotOfLast(out, id, |out| - 1);
  }
}
