/** Safety of the deferred-flush protocol: the invariant over every run, what each commit writes,
    what each scan may be served, and what a savepoint rollback costs. */
module ProtocolSafety {
  import opened Options
  import opened IdMap
  import opened Relfile
  import opened Vacuum
  import opened Cache
  import opened Xact
  import opened Insert
  import opened Protocol
  import opened ProtocolProof

  // ---------------------------------------------------------------- inserts and scans

  /** The entries after one insert step, from a cache whose entries were fine. */
  lemma InsertEntriesOk(disk: map<nat, Image>, nextNode: nat, x: Backend, sawEmpty: bool, capMb: int, mid: State,
      after: State, c: Change, r: InsertResult)
    requires BackendOk(disk, nextNode, x) && x.phase.Running? && c.rel in disk && c.id != 0 && Healthy(disk[c.rel])
    requires disk[c.rel].node < nextNode && (sawEmpty ==> Unique(disk[c.rel].rows))
    requires InsertStep(x.cache, disk[c.rel], sawEmpty, capMb, AmKey(c.rel, disk[c.rel]), c.id, c.code, mid, after, r)
    ensures var log := if r.Inserted? then x.kept + [c] else x.kept;
            EntriesOk(disk, nextNode, log, after.entries) && OneDirtyPerRel(after.entries)
              && KeptDirty(after.entries, log)
    ensures !r.Inserted? && NoDirty(x.cache.entries) ==> NoDirty(after.entries)
  {
    var img := disk[c.rel];
    var key := AmKey(c.rel, img);
    var found := AfterMutationLookup(x.cache, key, img.node);
    MutationLookupThinned(disk, nextNode, x.kept, x.cache, key, img.node);
    ThinnedOk(disk, nextNode, x.kept, x.cache.entries, found.entries);
    if MutationHit(x.cache, key, img.node) {
      assert EntryOk(disk, nextNode, x.kept, key, x.cache.entries[key]);
      InsertHit(disk, nextNode, x.kept, mid, c);
    } else if !r.LoadFailed? {
      assert Unique(img.rows);
      InsertLoaded(disk, nextNode, x.kept, found, sawEmpty, mid, c);
    }
  }

  lemma InsertBackendOk(s: Sys, t: Sys, b: nat, rel: nat, id: Id, code: Code, sawEmpty: bool, capMb: int, mid: State,
      r: InsertResult)
    requires Inv(s) && InsertNext(s, t, b, rel, id, code, sawEmpty, capMb, mid, r)
    ensures var y := t.backends[b];
            EntriesOk(s.disk, s.nextNode, y.kept, y.cache.entries) && OneDirtyPerRel(y.cache.entries)
              && KeptDirty(y.cache.entries, y.kept)
    ensures !r.Inserted? && NoDirty(s.backends[b].cache.entries) ==> NoDirty(t.backends[b].cache.entries)
  {
    assert BackendOk(s.disk, s.nextNode, s.backends[b]);
    hide BackendOk, InsertStep, Healthy, EntriesOk, OneDirtyPerRel, KeptDirty, NoDirty, Unique, AmKey;
    InsertEntriesOk(s.disk, s.nextNode, s.backends[b], sawEmpty, capMb, mid, t.backends[b].cache,
                    Change(rel, id, code), r);
  }

  lemma OneBackendKeeps(s: Sys, t: Sys, b: nat, y: Backend)
    requires Inv(s) && b < |s.backends| && t == WithBackend(s, b, y) && BackendOk(s.disk, s.nextNode, y)
    ensures Inv(t)
  {
    hide BackendOk;
  }

  lemma SuffixAppend<T>(made: seq<T>, kept: seq<T>, c: T)
    requires |kept| <= |made| && made[|made| - |kept|..] == kept
    ensures (made + [c])[|made| - |kept|..] == kept + [c]
  {
  }

  lemma LogsPushed(x: Backend, cache: State, c: Change)
    requires LogsOk(x)
    ensures LogsOk(x.(cache := cache, registered := true, made := x.made + [c], kept := x.kept + [c]))
  {
    SuffixAppend(x.made, x.kept, c);
    hide NoDirty;
  }

  lemma LogsKept(x: Backend, cache: State)
    requires LogsOk(x) && x.phase.Running? && (NoDirty(x.cache.entries) ==> NoDirty(cache.entries))
    ensures LogsOk(x.(cache := cache, failed := true)) && LogsOk(x.(cache := cache, scan := Idle))
  {
    hide NoDirty;
  }

  lemma InsertShape(s: Sys, t: Sys, b: nat, rel: nat, id: Id, code: Code, sawEmpty: bool, capMb: int, mid: State,
      r: InsertResult)
    requires InsertNext(s, t, b, rel, id, code, sawEmpty, capMb, mid, r)
    ensures b < |s.backends| && b < |t.backends| && rel in s.disk && t == WithBackend(s, b, t.backends[b])
    ensures s.backends[b].phase.Running?
    ensures var x, cache, c := s.backends[b], t.backends[b].cache, Change(rel, id, code);
            t.backends[b]
              == if r.Inserted? then x.(cache := cache, registered := true, made := x.made + [c], kept := x.kept + [c])
                             else x.(cache := cache, failed := true)
  {
    hide InsertStep, Unique;
  }

  lemma InsertLogs(s: Sys, t: Sys, b: nat, rel: nat, id: Id, code: Code, sawEmpty: bool, capMb: int, mid: State,
      r: InsertResult)
    requires InsertNext(s, t, b, rel, id, code, sawEmpty, capMb, mid, r)
    requires LogsOk(s.backends[b])
             && (!r.Inserted? && NoDirty(s.backends[b].cache.entries) ==> NoDirty(t.backends[b].cache.entries))
    ensures t == WithBackend(s, b, t.backends[b]) && LogsOk(t.backends[b])
    ensures t.backends[b].scan == s.backends[b].scan && t.backends[b].phase.Running?
  {
    InsertShape(s, t, b, rel, id, code, sawEmpty, capMb, mid, r);
    hide NoDirty, InsertNext, LogsOk;
    if r.Inserted? {
      LogsPushed(s.backends[b], t.backends[b].cache, Change(rel, id, code));
    } else {
      LogsKept(s.backends[b], t.backends[b].cache);
    }
  }

  lemma InsertKeeps(s: Sys, t: Sys, b: nat, rel: nat, id: Id, code: Code, sawEmpty: bool, capMb: int, mid: State,
      r: InsertResult)
    requires Inv(s) && InsertNext(s, t, b, rel, id, code, sawEmpty, capMb, mid, r)
    ensures Inv(t)
  {
    InsertBackendOk(s, t, b, rel, id, code, sawEmpty, capMb, mid, r);
    InsertShape(s, t, b, rel, id, code, sawEmpty, capMb, mid, r);
    hide EntriesOk, InsertNext, OneDirtyPerRel, NoDirty, DiskOk, HasDirty, LogsOk;
    assert BackendOk(s.disk, s.nextNode, s.backends[b]);
    InsertLogs(s, t, b, rel, id, code, sawEmpty, capMb, mid, r);
    hide KeptDirty, ScanOk;
    OneBackendKeeps(s, t, b, t.backends[b]);
  }

  lemma ScanOpenKeeps(s: Sys, t: Sys, b: nat, rel: nat)
    requires Inv(s) && ScanOpenNext(s, t, b, rel)
    ensures Inv(t)
  {
    hide EntriesOk, OneDirtyPerRel, NoDirty;
    assert BackendOk(s.disk, s.nextNode, s.backends[b]);
    OneBackendKeeps(s, t, b, t.backends[b]);
  }

  lemma ScanLookupThinned(st: State, key: CacheKey, node: nat, version: int)
    ensures Thinned(st.entries, AfterScanLookup(st, key, node, version).entries)
  {
  }

  lemma ScanLoadedOk(disk: map<nat, Image>, nextNode: nat, x: Backend, outOfCore: bool, bytes: nat, seqNo: nat)
    requires DiskOk(disk, nextNode) && ScanOk(disk, x.scan) && x.scan.Opened? && x.scan.rel in disk
    ensures EntryOk(disk, nextNode, x.kept, AmKey(x.scan.rel, disk[x.scan.rel]),
              Entry(LoadedCopy(disk[x.scan.rel], outOfCore), bytes, x.scan.node, x.scan.version, seqNo, false, None))
  {
  }

  lemma ScanEntriesOk(disk: map<nat, Image>, nextNode: nat, x: Backend, st: State, outOfCore: bool, bytes: nat)
    requires BackendOk(disk, nextNode, x) && x.phase.Running? && DiskOk(disk, nextNode) && x.scan.Opened?
             && x.scan.rel in disk
    requires var key := AmKey(x.scan.rel, disk[x.scan.rel]);
             !ScanHit(x.cache, key, x.scan.node, x.scan.version)
             && var found := AfterScanLookup(x.cache, key, x.scan.node, x.scan.version);
                var loaded := LoadedCopy(disk[x.scan.rel], outOfCore);
                Evicted(AfterInstall(found, key, loaded, bytes, x.scan.node, x.scan.version, None).entries, st.entries)
    ensures EntriesOk(disk, nextNode, x.kept, st.entries) && OneDirtyPerRel(st.entries) && KeptDirty(st.entries, x.kept)
    ensures NoDirty(x.cache.entries) ==> NoDirty(st.entries)
  {
    var img := disk[x.scan.rel];
    var key := AmKey(x.scan.rel, img);
    var found := AfterScanLookup(x.cache, key, x.scan.node, x.scan.version);
    var e := Entry(LoadedCopy(img, outOfCore), bytes, x.scan.node, x.scan.version, found.clock + 1, false, None);
    assert key !in found.entries;
    ScanLookupThinned(x.cache, key, x.scan.node, x.scan.version);
    ScanLoadedOk(disk, nextNode, x, outOfCore, bytes, found.clock + 1);
    assert Thinned(found.entries[key := e], st.entries);
    hide EntryOk, EntriesOk, OneDirtyPerRel, DiskOk, HasDirty, NoDirty, ScanOk, LogsOk;
    hide AfterScanLookup, ScanHit, Thinned, Evicted, AfterInstall;
    ThinnedOk(disk, nextNode, x.kept, x.cache.entries, found.entries);
    InstallCleanOk(disk, nextNode, x.kept, found.entries, key, e);
    ThinnedOk(disk, nextNode, x.kept, found.entries[key := e], st.entries);
  }

  lemma ScanFetchEntriesOk(s: Sys, t: Sys, b: nat, outOfCore: bool, bytes: nat, capMb: int)
    requires Inv(s) && ScanFetchNext(s, t, b, outOfCore, bytes, capMb)
    ensures var x, entries := s.backends[b], t.backends[b].cache.entries;
            && EntriesOk(s.disk, s.nextNode, x.kept, entries) && OneDirtyPerRel(entries) && KeptDirty(entries, x.kept)
            && (NoDirty(x.cache.entries) ==> NoDirty(entries))
  {
    var x, y := s.backends[b], t.backends[b];
    var img := s.disk[x.scan.rel];
    var key := AmKey(x.scan.rel, img);
    var found := AfterScanLookup(x.cache, key, x.scan.node, x.scan.version);
    assert BackendOk(s.disk, s.nextNode, x);
    hide EntriesOk, OneDirtyPerRel, NoDirty, DiskOk, HasDirty;
    if ScanHit(x.cache, key, x.scan.node, x.scan.version) {
      ScanLookupThinned(x.cache, key, x.scan.node, x.scan.version);
      ThinnedOk(s.disk, s.nextNode, x.kept, x.cache.entries, found.entries);
    } else {
      ScanEntriesOk(s.disk, s.nextNode, x, y.cache, outOfCore, bytes);
    }
  }

  lemma ScanFetchShape(s: Sys, t: Sys, b: nat, outOfCore: bool, bytes: nat, capMb: int)
    requires ScanFetchNext(s, t, b, outOfCore, bytes, capMb)
    ensures b < |s.backends| && b < |t.backends| && t == WithBackend(s, b, t.backends[b])
    ensures t.backends[b] == s.backends[b].(cache := t.backends[b].cache, scan := Idle) && s.backends[b].phase.Running?
  {
    hide AfterScanLookup, AfterInstall, Evicted, ScanHit, AmKey;
  }

  lemma ScanFetchKeeps(s: Sys, t: Sys, b: nat, outOfCore: bool, bytes: nat, capMb: int)
    requires Inv(s) && ScanFetchNext(s, t, b, outOfCore, bytes, capMb)
    ensures Inv(t)
  {
    hide EntriesOk, OneDirtyPerRel, NoDirty, DiskOk, HasDirty, ScanFetchNext, LogsOk;
    ScanFetchEntriesOk(s, t, b, outOfCore, bytes, capMb);
    ScanFetchShape(s, t, b, outOfCore, bytes, capMb);
    assert BackendOk(s.disk, s.nextNode, s.backends[b]);
    LogsKept(s.backends[b], t.backends[b].cache);
    OneBackendKeeps(s, t, b, t.backends[b]);
  }

  // ---------------------------------------------------------------- commits

  /** In every reachable state, between two flushes of the same commit too, validation passes for every
      entry still dirty and no guard inside its flush would fire on the disk as it is then. */
  lemma CommitNeverFails(s: Sys, b: nat, maxPct: int)
    requires Inv(s) && b < |s.backends|
    ensures AllValid(s.backends[b].cache.entries) && NoneRefused(s.backends[b].cache.entries, s.disk, maxPct)
    ensures OneDirtyPerRel(s.backends[b].cache.entries)
  {
    var x := s.backends[b];
    assert BackendOk(s.disk, s.nextNode, x);
    forall k | k in x.cache.entries && Flushable(x.cache.entries[k])
      ensures SnapshotValid(x.cache.entries[k].index.rows, x.cache.entries[k].persist.value)
      ensures k.relOid in s.disk ==> FlushOf(x.cache.entries[k], s.disk[k.relOid], maxPct).Flushed?
    {
      var e := x.cache.entries[k];
      assert EntryOk(s.disk, s.nextNode, x.kept, k, e);
      DistinctIds(e.index.rows);
      if k.relOid in s.disk { FlushAccepted(s.disk[k.relOid], e, maxPct); }
    }
  }

  lemma FlushAccepted(img: Image, e: Entry, maxPct: int)
    requires Healthy(img) && Unique(img.rows) && MutableOk(e) && Flushable(e)
    ensures FlushOf(e, img, maxPct).Flushed?
  {
    FlushRefusedIff(img, e.index.rows, e.persist.value.touchedIds, e.persist.value.version, maxPct);
    assert forall i :: 0 <= i < |e.index.rows| ==> e.index.rows[i].id != 0;
  }

  lemma FlushAdvances(img: Image, e: Entry, maxPct: int)
    requires Healthy(img) && Unique(img.rows) && MutableOk(e) && Flushable(e) && img.version < U32_MAX
    requires FlushOf(e, img, maxPct).Flushed?
    ensures var out := FlushOf(e, img, maxPct).img;
            Healthy(out) && Advanced(img, out) && Unique(out.rows) && out.version > img.version
  {
    var p := e.persist.value;
    FlushSound(img, e.index.rows, p.touchedIds, p.version, maxPct);
    FlushRowsNonzero(img.rows, e.index.rows, p.touchedIds);
  }

  lemma SettledOk(disk: map<nat, Image>, after: map<nat, Image>, nextNode: nat, kept: seq<Change>, k: CacheKey,
      e: Entry, maxPct: int)
    requires EntryOk(disk, nextNode, kept, k, e) && Flushable(e)
    requires var s := Settled(e, OutcomeOf(k, e, disk, maxPct)); s.Some?
    requires k.relOid in disk ==> FlushOf(e, disk[k.relOid], maxPct).Flushed?
    requires k.relOid in disk ==> k.relOid in after && after[k.relOid] == FlushOf(e, disk[k.relOid], maxPct).img
    ensures var out := Settled(e, OutcomeOf(k, e, disk, maxPct)).value;
            EntryOk(after, nextNode, kept, k, out) && !out.dirty
  {
  }

  lemma CleanWithoutLog(disk: map<nat, Image>, nextNode: nat, kept: seq<Change>, k: CacheKey, e: Entry)
    requires EntryOk(disk, nextNode, kept, k, e) && !e.dirty
    ensures EntryOk(disk, nextNode, [], k, e)
  {
  }

  /** What one flush does to the disk: the index advances, every other one stays. */
  lemma FlushOneAdvances(disk: map<nat, Image>, nextNode: nat, kept: seq<Change>, k: CacheKey, e: Entry, maxPct: int)
    requires DiskOk(disk, nextNode) && EntryOk(disk, nextNode, kept, k, e) && Flushable(e)
             && FlushGoesThrough(disk, k, e, maxPct)
    ensures var after := DiskAfterFlush(disk, k, e, maxPct); DiskAdvances(disk, after) && DiskOk(after, nextNode)
  {
    if k.relOid in disk {
      FlushAdvances(disk[k.relOid], e, maxPct);
      ImageReplaced(disk, nextNode, k.relOid, FlushOf(e, disk[k.relOid], maxPct).img);
    }
  }

  lemma FlushedEntryOk(disk: map<nat, Image>, nextNode: nat, kept: seq<Change>, st: State, k: CacheKey, maxPct: int)
    requires EntriesOk(disk, nextNode, kept, st.entries) && k in st.entries && Flushable(st.entries[k])
    requires FlushGoesThrough(disk, k, st.entries[k], maxPct)
    ensures var e := st.entries[k];
            var after := AfterClearDirty(st, k, OutcomeOf(k, e, disk, maxPct)).entries;
            k in after ==> EntryOk(DiskAfterFlush(disk, k, e, maxPct), nextNode, kept, k, after[k]) && !after[k].dirty
  {
    var e := st.entries[k];
    assert EntryOk(disk, nextNode, kept, k, e);
    if Settled(e, OutcomeOf(k, e, disk, maxPct)).Some? {
      SettledOk(disk, DiskAfterFlush(disk, k, e, maxPct), nextNode, kept, k, e, maxPct);
    }
  }

  lemma FlushedEntriesOk(disk: map<nat, Image>, nextNode: nat, kept: seq<Change>, st: State, k: CacheKey, maxPct: int)
    requires DiskOk(disk, nextNode) && EntriesOk(disk, nextNode, kept, st.entries) && k in st.entries
             && Flushable(st.entries[k])
    requires FlushGoesThrough(disk, k, st.entries[k], maxPct)
    ensures var e := st.entries[k];
            EntriesOk(DiskAfterFlush(disk, k, e, maxPct), nextNode, kept,
              AfterClearDirty(st, k, OutcomeOf(k, e, disk, maxPct)).entries)
  {
    var e := st.entries[k];
    var disk' := DiskAfterFlush(disk, k, e, maxPct);
    var entries := AfterClearDirty(st, k, OutcomeOf(k, e, disk, maxPct)).entries;
    assert EntryOk(disk, nextNode, kept, k, e);
    FlushOneAdvances(disk, nextNode, kept, k, e, maxPct);
    FlushedEntryOk(disk, nextNode, kept, st, k, maxPct);
    hide EntryOk, DiskAdvances, DiskOk, DiskAfterFlush, OutcomeOf;
    forall j | j in entries ensures EntryOk(disk', nextNode, kept, j, entries[j]) {
      if j != k {
        assert j in st.entries && entries[j] == st.entries[j] by {
          OthersUntouched(st, k, OutcomeOf(k, e, disk, maxPct), j);
        }
        EntryOkAdvanced(disk, disk', nextNode, kept, j, st.entries[j]);
      }
    }
  }

  lemma OthersUntouched(st: State, k: CacheKey, outcome: Option<FlushOutcome>, j: CacheKey)
    requires j != k
    ensures var after := AfterClearDirty(st, k, outcome).entries;
            (j in after <==> j in st.entries) && (j in after ==> after[j] == st.entries[j])
  {
  }

  /** After the flush the entry is clean or gone; which others are dirty has not changed. */
  lemma FlushedPhase(x: Backend, y: Backend, k: CacheKey, outcome: Option<FlushOutcome>)
    requires PhaseOk(x) && OneDirtyPerRel(x.cache.entries) && x.phase.Flushing? && k in x.phase.todo
    requires y == x.(cache := AfterClearDirty(x.cache, k, outcome), phase := Flushing(x.phase.todo - {k}))
    ensures PhaseOk(y) && OneDirtyPerRel(y.cache.entries)
  {
    forall j | j != k
      ensures (j in y.cache.entries <==> j in x.cache.entries)
              && (j in y.cache.entries ==> y.cache.entries[j] == x.cache.entries[j])
    {
      OthersUntouched(x.cache, k, outcome, j);
    }
    assert k in y.cache.entries ==> !y.cache.entries[k].dirty;
  }

  lemma FlushingBackendOk(disk: map<nat, Image>, nextNode: nat, x: Backend, y: Backend, k: CacheKey, maxPct: int)
    requires DiskOk(disk, nextNode) && BackendOk(disk, nextNode, x) && x.phase.Flushing? && k in x.phase.todo
    requires k in x.cache.entries && Flushable(x.cache.entries[k])
             && FlushGoesThrough(disk, k, x.cache.entries[k], maxPct)
    requires y == x.(cache := AfterClearDirty(x.cache, k, OutcomeOf(k, x.cache.entries[k], disk, maxPct)),
                     phase := Flushing(x.phase.todo - {k}))
    ensures BackendOk(DiskAfterFlush(disk, k, x.cache.entries[k], maxPct), nextNode, y)
  {
    var e := x.cache.entries[k];
    assert EntryOk(disk, nextNode, x.kept, k, e);
    FlushedEntriesOk(disk, nextNode, x.kept, x.cache, k, maxPct);
    FlushedPhase(x, y, k, OutcomeOf(k, e, disk, maxPct));
    FlushOneAdvances(disk, nextNode, x.kept, k, e, maxPct);
    ScanAdvanced(disk, DiskAfterFlush(disk, k, e, maxPct), x.scan);
    hide EntriesOk, EntryOk, PhaseOk, OneDirtyPerRel, ScanOk, DiskAfterFlush, AfterClearDirty, OutcomeOf;
  }

  lemma CommitBeginKeeps(s: Sys, t: Sys, b: nat)
    requires Inv(s) && CommitBeginNext(s, t, b)
    ensures Inv(t)
  {
    var x, y := s.backends[b], t.backends[b];
    assert BackendOk(s.disk, s.nextNode, x);
    forall k | k in x.cache.entries && x.cache.entries[k].dirty ensures Flushable(x.cache.entries[k]) {
      assert EntryOk(s.disk, s.nextNode, x.kept, k, x.cache.entries[k]);
    }
    hide EntriesOk, AllValid, OneDirtyPerRel, DiskOk;
    assert PhaseOk(y);
    OneBackendKeeps(s, t, b, y);
  }

  lemma FlushOneKeeps(s: Sys, t: Sys, b: nat, k: CacheKey, maxPct: int)
    requires Inv(s) && FlushOneNext(s, t, b, k, maxPct)
    ensures Inv(t)
  {
    var x := s.backends[b];
    var e := x.cache.entries[k];
    assert BackendOk(s.disk, s.nextNode, x);
    FlushingBackendOk(s.disk, s.nextNode, x, t.backends[b], k, maxPct);
    assert EntryOk(s.disk, s.nextNode, x.kept, k, e);
    FlushOneAdvances(s.disk, s.nextNode, x.kept, k, e, maxPct);
    hide BackendOk, EntryOk, DiskAdvances, DiskOk, DiskAfterFlush, FlushGoesThrough;
    forall i | 0 <= i < |t.backends| && i != b ensures BackendOk(t.disk, t.nextNode, t.backends[i]) {
      BackendOkAdvanced(s.disk, t.disk, s.nextNode, s.backends[i]);
    }
  }

  lemma CommitEndKeeps(s: Sys, t: Sys, b: nat)
    requires Inv(s) && CommitEndNext(s, t, b)
    ensures Inv(t)
  {
    var x, y := s.backends[b], t.backends[b];
    assert BackendOk(s.disk, s.nextNode, x);
    assert NoDirty(x.cache.entries);
    forall k | k in y.cache.entries ensures EntryOk(t.disk, t.nextNode, [], k, y.cache.entries[k]) {
      assert EntryOk(s.disk, s.nextNode, x.kept, k, x.cache.entries[k]);
      CleanWithoutLog(s.disk, s.nextNode, x.kept, k, x.cache.entries[k]);
    }
    hide EntryOk, DiskOk;
    OneBackendKeeps(s, t, b, y);
  }

  lemma ScanAdvanced(disk: map<nat, Image>, after: map<nat, Image>, scan: ScanCtx)
    requires DiskAdvances(disk, after) && ScanOk(disk, scan)
    ensures ScanOk(after, scan)
  {
    if scan.Opened? && scan.rel in disk { assert Advanced(disk[scan.rel], after[scan.rel]); }
  }

  // ---------------------------------------------------------------- rollbacks

  lemma RolledBackOk(disk: map<nat, Image>, nextNode: nat, x: Backend)
    requires BackendOk(disk, nextNode, x) && x.phase.Running?
    ensures EntriesOk(disk, nextNode, [], RolledBack(x).entries) && NoDirty(RolledBack(x).entries)
  {
    var entries := RolledBack(x).entries;
    forall k | k in entries ensures EntryOk(disk, nextNode, [], k, entries[k]) {
      CleanWithoutLog(disk, nextNode, x.kept, k, x.cache.entries[k]);
    }
  }

  lemma AbortKeeps(s: Sys, t: Sys, b: nat)
    requires Inv(s) && AbortNext(s, t, b)
    ensures Inv(t)
  {
    assert BackendOk(s.disk, s.nextNode, s.backends[b]);
    RolledBackOk(s.disk, s.nextNode, s.backends[b]);
    hide EntriesOk;
    OneBackendKeeps(s, t, b, t.backends[b]);
  }

  lemma AbortSubKeeps(s: Sys, t: Sys, b: nat, mark: nat)
    requires Inv(s) && AbortSubNext(s, t, b, mark)
    ensures Inv(t)
  {
    assert BackendOk(s.disk, s.nextNode, s.backends[b]);
    RolledBackOk(s.disk, s.nextNode, s.backends[b]);
    hide EntriesOk;
    OneBackendKeeps(s, t, b, t.backends[b]);
  }

  lemma InvalidateAllKeeps(s: Sys, t: Sys, b: nat)
    requires Inv(s) && InvalidateAllNext(s, t, b)
    ensures Inv(t)
  {
    assert BackendOk(s.disk, s.nextNode, s.backends[b]);
    hide EntryOk, DiskOk, HasDirty;
    OneBackendKeeps(s, t, b, t.backends[b]);
  }

  // ---------------------------------------------------------------- rewrites from outside

  lemma VacuumAdvances(img: Image, gone: set<Id>)
    requires Healthy(img) && img.version < U32_MAX
    ensures Advanced(img, VacuumImage(img, gone)) && Healthy(VacuumImage(img, gone))
  {
    VacuumHealthy(img, gone);
  }

  lemma ImageReplaced(disk: map<nat, Image>, nextNode: nat, rel: nat, img: Image)
    requires DiskOk(disk, nextNode) && rel in disk && Advanced(disk[rel], img) && Healthy(img)
    ensures DiskAdvances(disk, disk[rel := img]) && DiskOk(disk[rel := img], nextNode)
  {
    hide Healthy;
  }

  lemma DiskAdvancedKeeps(s: Sys, t: Sys)
    requires Inv(s) && t == s.(disk := t.disk) && DiskAdvances(s.disk, t.disk) && DiskOk(t.disk, t.nextNode)
    ensures Inv(t)
  {
    hide BackendOk, DiskAdvances, DiskOk;
    forall i | 0 <= i < |t.backends| ensures BackendOk(t.disk, t.nextNode, t.backends[i]) {
      BackendOkAdvanced(s.disk, t.disk, s.nextNode, s.backends[i]);
    }
  }

  lemma VacuumKeeps(s: Sys, t: Sys, rel: nat, gone: set<Id>)
    requires Inv(s) && VacuumNext(s, t, rel, gone)
    ensures Inv(t)
  {
    hide EntriesOk;
    VacuumAdvances(s.disk[rel], gone);
    ImageReplaced(s.disk, s.nextNode, rel, VacuumImage(s.disk[rel], gone));
    hide Inv, DiskOk, DiskAdvances, VacuumImage;
    DiskAdvancedKeeps(s, t);
  }

  /** An entry of an index nobody has unflushed changes to is clean, so a new relfilenode makes it stale for good. */
  lemma ReindexedBackendOk(disk: map<nat, Image>, nextNode: nat, x: Backend, rel: nat, img: Image)
    requires BackendOk(disk, nextNode, x) && rel in disk && Unlocked(x, rel) && img.node == nextNode
    ensures BackendOk(disk[rel := img], nextNode + 1, x)
  {
    var entries := x.cache.entries;
    NoneOfRel(x.kept, rel);
    forall k | k in entries ensures EntryOk(disk[rel := img], nextNode + 1, x.kept, k, entries[k]) {
      assert EntryOk(disk, nextNode, x.kept, k, entries[k]);
    }
  }

  lemma ReindexKeeps(s: Sys, t: Sys, rel: nat, img: Image)
    requires Inv(s) && ReindexNext(s, t, rel, img)
    ensures Inv(t)
  {
    hide Healthy;
    forall i | 0 <= i < |t.backends| ensures BackendOk(t.disk, t.nextNode, t.backends[i]) {
      assert BackendOk(s.disk, s.nextNode, s.backends[i]);
      ReindexedBackendOk(s.disk, s.nextNode, s.backends[i], rel, img);
    }
  }

  lemma DroppedBackendOk(disk: map<nat, Image>, nextNode: nat, x: Backend, rel: nat)
    requires BackendOk(disk, nextNode, x)
    ensures BackendOk(disk - {rel}, nextNode, x)
  {
    var entries := x.cache.entries;
    forall k | k in entries ensures EntryOk(disk - {rel}, nextNode, x.kept, k, entries[k]) {
      assert EntryOk(disk, nextNode, x.kept, k, entries[k]);
    }
  }

  lemma DropIndexKeeps(s: Sys, t: Sys, b: nat, rel: nat)
    requires Inv(s) && DropIndexNext(s, t, b, rel)
    ensures Inv(t)
  {
    forall i | 0 <= i < |t.backends| ensures BackendOk(t.disk, t.nextNode, t.backends[i]) {
      DroppedBackendOk(s.disk, s.nextNode, s.backends[i], rel);
    }
  }

  lemma NextKeeps(s: Sys, t: Sys, step: Step)
    requires Inv(s) && Next(s, t, step)
    ensures Inv(t)
  {
    hide Inv;
    match step {
      case InsertRow(b, rel, id, code, sawEmpty, capMb, mid, r) =>
        InsertKeeps(s, t, b, rel, id, code, sawEmpty, capMb, mid, r);
      case ScanOpen(b, rel) => ScanOpenKeeps(s, t, b, rel);
      case ScanFetch(b, outOfCore, bytes, capMb) => ScanFetchKeeps(s, t, b, outOfCore, bytes, capMb);
      case CommitBegin(b) => CommitBeginKeeps(s, t, b);
      case FlushOne(b, k, maxPct) => FlushOneKeeps(s, t, b, k, maxPct);
      case CommitEnd(b) => CommitEndKeeps(s, t, b);
      case Abort(b) => AbortKeeps(s, t, b);
      case AbortSub(b, mark) => AbortSubKeeps(s, t, b, mark);
      case InvalidateAll(b) => InvalidateAllKeeps(s, t, b);
      case VacuumRel(rel, gone) => VacuumKeeps(s, t, rel, gone);
      case Reindex(rel, img) => ReindexKeeps(s, t, rel, img);
      case DropIndex(b, rel) => DropIndexKeeps(s, t, b, rel);
    }
  }
}
