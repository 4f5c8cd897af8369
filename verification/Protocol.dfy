/** The deferred-flush protocol: any number of backends inserting, scanning, committing and rolling
    back against shared relfiles that VACUUM and REINDEX rewrite meanwhile. One step is one call that
    touches at most one relfile, under its rewrite lock, or only the backend's own memory. A commit is a
    validation, one flush per dirty index, and an end, with anything from others in between. */
module Protocol {
  import opened Options
  import opened IdMap
  import opened Reconcile
  import opened Relfile
  import opened Vacuum
  import opened Cache
  import opened Xact
  import opened Insert

  /** One upserted row. */
  datatype Change = Change(rel: nat, id: Id, code: Code)

  /** A scan reads the meta page first and looks up or loads the index later. */
  datatype ScanCtx = Idle | Opened(rel: nat, node: nat, version: nat)

  /** Inside PreCommit, the dirty entries drained and not yet flushed. */
  datatype Phase = Running | Flushing(todo: set<CacheKey>)

  /** `made` lists the open transaction's upserts that no savepoint rollback undid; `kept` those that were
      waiting in the cache when PreCommit began, or wait now. Both record history and steer nothing. */
  datatype Backend = Backend(cache: State, registered: bool, failed: bool, made: seq<Change>, kept: seq<Change>,
                             scan: ScanCtx, phase: Phase)

  datatype Sys = Sys(disk: map<nat, Image>, backends: seq<Backend>, nextNode: nat)

  function ChangesMap(log: seq<Change>, rel: nat): map<Id, Code> {
    if log == [] then map[] else
      var last := log[|log| - 1];
      var m := ChangesMap(log[..|log| - 1], rel);
      if last.rel == rel then m[last.id := last.code] else m
  }

  function RelIds(log: seq<Change>, rel: nat): seq<Id> {
    if log == [] then [] else
      var last := log[|log| - 1];
      var ids := RelIds(log[..|log| - 1], rel);
      if last.rel == rel then ids + [last.id] else ids
  }

  // ---------------------------------------------------------------- steps

  datatype Step =
    | InsertRow(b: nat, rel: nat, id: Id, code: Code, sawEmpty: bool, capMb: int, mid: State, result: InsertResult)
    | ScanOpen(b: nat, rel: nat)
    | ScanFetch(b: nat, outOfCore: bool, bytes: nat, capMb: int)
    | CommitBegin(b: nat)
    | FlushOne(b: nat, key: CacheKey, maxPct: int)
    | CommitEnd(b: nat)
    | Abort(b: nat)
    | AbortSub(b: nat, mark: nat)
    | InvalidateAll(b: nat)
    | VacuumRel(rel: nat, gone: set<Id>)
    | Reindex(rel: nat, img: Image)
    | DropIndex(b: nat, rel: nat)

  function WithBackend(s: Sys, b: nat, y: Backend): Sys
    requires b < |s.backends|
  {
    s.(backends := s.backends[b := y])
  }

  ghost predicate InsertNext(s: Sys, t: Sys, b: nat, rel: nat, id: Id, code: Code, sawEmpty: bool, capMb: int,
      mid: State, r: InsertResult)
  {
    && b < |s.backends| && rel in s.disk && id != 0
    && var x := s.backends[b];
       var img := s.disk[rel];
       && x.phase.Running? && !x.failed
       && (sawEmpty ==> Unique(img.rows))
       && b < |t.backends|
       && InsertStep(x.cache, img, sawEmpty, capMb, AmKey(rel, img), id, code, mid, t.backends[b].cache, r)
       && t == WithBackend(s, b,
                 if r.Inserted? then
                   x.(cache := t.backends[b].cache, registered := true,
                      made := x.made + [Change(rel, id, code)], kept := x.kept + [Change(rel, id, code)])
                 else x.(cache := t.backends[b].cache, failed := true))
  }

  ghost predicate ScanOpenNext(s: Sys, t: Sys, b: nat, rel: nat) {
    && b < |s.backends| && rel in s.disk && s.backends[b].scan.Idle? && s.backends[b].phase.Running?
    && t == WithBackend(s, b, s.backends[b].(scan := Opened(rel, s.disk[rel].node, s.disk[rel].version)))
  }

  /** A scan loads the whole index, or for a cell-scoped scan its directory, ids and scales; the codes of
      the latter are read from disk during the search. Either way it serves the rows on disk by slot. */
  function LoadedCopy(img: Image, outOfCore: bool): Stored {
    if outOfCore then Ooc(img.rows) else ReadOnly(img.rows)
  }

  /** Looks the index up under the version read at open; on a miss loads the rows now on disk and
      files them under that same, possibly older, version. */
  ghost predicate ScanFetchNext(s: Sys, t: Sys, b: nat, outOfCore: bool, bytes: nat, capMb: int) {
    && b < |s.backends| && s.backends[b].scan.Opened? && s.backends[b].scan.rel in s.disk
    && s.backends[b].phase.Running? && b < |t.backends|
    && var x := s.backends[b];
       var y := t.backends[b];
       var img := s.disk[x.scan.rel];
       var key := AmKey(x.scan.rel, img);
       var found := AfterScanLookup(x.cache, key, x.scan.node, x.scan.version);
       var copy := LoadedCopy(img, outOfCore);
       && (if ScanHit(x.cache, key, x.scan.node, x.scan.version) then y.cache == found
           else y.cache.clock == found.clock + 1
                && Capped(AfterInstall(found, key, copy, bytes, x.scan.node, x.scan.version, None).entries,
                          y.cache.entries, capMb))
       && t == WithBackend(s, b, x.(cache := y.cache, scan := Idle))
  }

  /** PreCommit drains the dirty entries and validates all of them before it writes anything. */
  ghost predicate CommitBeginNext(s: Sys, t: Sys, b: nat) {
    && b < |s.backends|
    && var x := s.backends[b];
       && x.phase.Running? && x.registered && !x.failed && AllValid(x.cache.entries)
       && t == WithBackend(s, b, x.(registered := false, phase := Flushing(FlushableKeys(x.cache.entries))))
  }

  /** The disk after one entry was flushed onto its index; an index dropped meanwhile is skipped. */
  function DiskAfterFlush(disk: map<nat, Image>, k: CacheKey, e: Entry, maxPct: int): map<nat, Image>
    requires Flushable(e)
  {
    if k.relOid in disk && FlushOf(e, disk[k.relOid], maxPct).Flushed?
    then disk[k.relOid := FlushOf(e, disk[k.relOid], maxPct).img]
    else disk
  }

  /** No guard of the flush fires, and the index's version counter is not saturated. */
  ghost predicate FlushGoesThrough(disk: map<nat, Image>, k: CacheKey, e: Entry, maxPct: int)
    requires Flushable(e)
  {
    k.relOid in disk ==> disk[k.relOid].version < U32_MAX && FlushOf(e, disk[k.relOid], maxPct).Flushed?
  }

  predicate VersionsLeft(disk: map<nat, Image>) {
    forall r :: r in disk ==> disk[r].version < U32_MAX
  }

  /** One drained entry: flush it onto the index as it is on disk now, then settle it. */
  ghost predicate FlushOneNext(s: Sys, t: Sys, b: nat, k: CacheKey, maxPct: int) {
    && b < |s.backends|
    && var x := s.backends[b];
       && x.phase.Flushing? && k in x.phase.todo && k in x.cache.entries && Flushable(x.cache.entries[k])
       && var e := x.cache.entries[k];
          var outcome := OutcomeOf(k, e, s.disk, maxPct);
          && FlushGoesThrough(s.disk, k, e, maxPct)
          && t == WithBackend(s, b,
               x.(cache := AfterClearDirty(x.cache, k, outcome), phase := Flushing(x.phase.todo - {k})))
                    .(disk := DiskAfterFlush(s.disk, k, e, maxPct))
  }

  /** The transaction is over; one that never registered its callbacks has nothing to flush. */
  ghost predicate CommitEndNext(s: Sys, t: Sys, b: nat) {
    && b < |s.backends|
    && var x := s.backends[b];
       && !x.failed && (if x.phase.Flushing? then x.phase.todo == {} else !x.registered)
       && t == WithBackend(s, b, x.(made := [], kept := [], phase := Running))
  }

  function RolledBack(x: Backend): State {
    if x.registered then AfterInvalidateDirty(x.cache) else x.cache
  }

  ghost predicate AbortNext(s: Sys, t: Sys, b: nat) {
    && b < |s.backends| && s.backends[b].phase.Running?
    && t == WithBackend(s, b, Backend(RolledBack(s.backends[b]), false, false, [], [], Idle, Running))
  }

  /** `ROLLBACK TO SAVEPOINT`: undoes the upserts past `mark`, and drops every dirty entry whole. */
  ghost predicate AbortSubNext(s: Sys, t: Sys, b: nat, mark: nat) {
    && b < |s.backends| && mark <= |s.backends[b].made| && s.backends[b].phase.Running?
    && var x := s.backends[b];
       t == WithBackend(s, b,
         x.(cache := RolledBack(x), failed := false, made := x.made[..mark], kept := [], scan := Idle))
  }

  /** A 1-bit insert by the same backend clears its whole cache. */
  ghost predicate InvalidateAllNext(s: Sys, t: Sys, b: nat) {
    && b < |s.backends| && s.backends[b].phase.Running?
    && t == WithBackend(s, b, s.backends[b].(cache := State(map[], s.backends[b].cache.clock), kept := []))
  }

  ghost predicate VacuumNext(s: Sys, t: Sys, rel: nat, gone: set<Id>) {
    && rel in s.disk && s.disk[rel].version < U32_MAX
    && t == s.(disk := s.disk[rel := VacuumImage(s.disk[rel], gone)])
  }

  /** Nobody holds a lock on the index: no unflushed change to it and no scan of it under way. */
  ghost predicate Unlocked(x: Backend, rel: nat) {
    && (forall i :: 0 <= i < |x.kept| ==> x.kept[i].rel != rel)
    && (x.scan.Opened? ==> x.scan.rel != rel)
  }

  ghost predicate ReindexNext(s: Sys, t: Sys, rel: nat, img: Image) {
    && rel in s.disk && Healthy(img) && img.node == s.nextNode
    && (forall b :: 0 <= b < |s.backends| ==> Unlocked(s.backends[b], rel))
    && t == s.(disk := s.disk[rel := img], nextNode := s.nextNode + 1)
  }

  /** A transaction may drop an index it has inserted into. */
  ghost predicate DropIndexNext(s: Sys, t: Sys, b: nat, rel: nat) {
    && rel in s.disk && b < |s.backends|
    && (forall i :: 0 <= i < |s.backends| && i != b ==> Unlocked(s.backends[i], rel))
    && s.backends[b].scan.Idle? && s.backends[b].phase.Running?
    && t == s.(disk := s.disk - {rel})
  }

  ghost predicate Next(s: Sys, t: Sys, step: Step) {
    match step
    case InsertRow(b, rel, id, code, sawEmpty, capMb, mid, r) =>
        InsertNext(s, t, b, rel, id, code, sawEmpty, capMb, mid, r)
    case ScanOpen(b, rel) => ScanOpenNext(s, t, b, rel)
    case ScanFetch(b, outOfCore, bytes, capMb) => ScanFetchNext(s, t, b, outOfCore, bytes, capMb)
    case CommitBegin(b) => CommitBeginNext(s, t, b)
    case FlushOne(b, k, maxPct) => FlushOneNext(s, t, b, k, maxPct)
    case CommitEnd(b) => CommitEndNext(s, t, b)
    case Abort(b) => AbortNext(s, t, b)
    case AbortSub(b, mark) => AbortSubNext(s, t, b, mark)
    case InvalidateAll(b) => InvalidateAllNext(s, t, b)
    case VacuumRel(rel, gone) => VacuumNext(s, t, rel, gone)
    case Reindex(rel, img) => ReindexNext(s, t, rel, img)
    case DropIndex(b, rel) => DropIndexNext(s, t, b, rel)
  }

  // ---------------------------------------------------------------- the invariant

  ghost predicate MutableOk(e: Entry) {
    && e.index.Mutable? && e.persist.Some?
    && var p := e.persist.value;
       && Unique(e.index.rows) && NonzeroIds(e.index.rows)
       && p.nVectors == |e.index.rows|
       && multiset(p.liveIds) == multiset(Ids(e.index.rows))
       && TouchedInSnapshot(e.index.rows, p.touchedIds)
       && (e.dirty <==> p.touchedIds != [])
  }

  ghost predicate ReadOnlyOk(e: Entry) {
    (e.index.ReadOnly? || e.index.Ooc?) && e.persist.None? && !e.dirty
  }

  /** An unflushed entry holds exactly its transaction's waiting changes, for an index that cannot have been
      rewritten. */
  ghost predicate DirtyOk(disk: map<nat, Image>, kept: seq<Change>, k: CacheKey, e: Entry)
    requires MutableOk(e)
  {
    && e.persist.value.touchedIds == RelIds(kept, k.relOid)
    && Picked(e.index.rows, e.persist.value.touchedIds) == ChangesMap(kept, k.relOid)
    && (k.relOid in disk ==>
          e.relfilenode == disk[k.relOid].node && k == AmKey(k.relOid, disk[k.relOid]) && Unique(disk[k.relOid].rows))
  }

  /** A clean entry labelled with the version now on disk holds the rows now on disk. */
  ghost predicate CleanOk(disk: map<nat, Image>, k: CacheKey, e: Entry)
    requires MutableOk(e) || ReadOnlyOk(e)
  {
    k.relOid in disk && e.relfilenode == disk[k.relOid].node ==>
      && e.nRows <= disk[k.relOid].version
      && (e.nRows == disk[k.relOid].version ==>
            e.index.rows == disk[k.relOid].rows && (e.index.Mutable? ==> disk[k.relOid].dead == []))
      && (e.index.Mutable? ==> Unique(disk[k.relOid].rows))
  }

  ghost predicate EntryOk(disk: map<nat, Image>, nextNode: nat, kept: seq<Change>, k: CacheKey, e: Entry) {
    && (MutableOk(e) || ReadOnlyOk(e))
    && e.relfilenode < nextNode
    && (if e.dirty then DirtyOk(disk, kept, k, e) else CleanOk(disk, k, e))
  }

  ghost predicate EntriesOk(disk: map<nat, Image>, nextNode: nat, kept: seq<Change>, entries: map<CacheKey, Entry>) {
    forall k :: k in entries ==> EntryOk(disk, nextNode, kept, k, entries[k])
  }

  predicate HasDirty(entries: map<CacheKey, Entry>, rel: nat) {
    exists k :: k in entries && k.relOid == rel && entries[k].dirty
  }

  ghost predicate NoDirty(entries: map<CacheKey, Entry>) {
    forall k :: k in entries ==> !entries[k].dirty
  }

  ghost predicate LogsOk(x: Backend) {
    && |x.kept| <= |x.made| && x.made[|x.made| - |x.kept|..] == x.kept
    && (x.phase.Running? && !x.registered ==> NoDirty(x.cache.entries) && x.made == [])
  }

  ghost predicate KeptDirty(entries: map<CacheKey, Entry>, kept: seq<Change>) {
    forall i :: 0 <= i < |kept| ==> HasDirty(entries, kept[i].rel)
  }

  /** Outside PreCommit every waiting upsert's index has a dirty entry; inside, the dirty entries are those still
      to flush. */
  ghost predicate PhaseOk(x: Backend) {
    match x.phase
    case Running => KeptDirty(x.cache.entries, x.kept)
    case Flushing(todo) => forall k :: k in todo <==> k in x.cache.entries && x.cache.entries[k].dirty
  }

  ghost predicate ScanOk(disk: map<nat, Image>, scan: ScanCtx) {
    scan.Opened? && scan.rel in disk ==> scan.node == disk[scan.rel].node && scan.version <= disk[scan.rel].version
  }

  ghost predicate BackendOk(disk: map<nat, Image>, nextNode: nat, x: Backend) {
    && EntriesOk(disk, nextNode, x.kept, x.cache.entries)
    && OneDirtyPerRel(x.cache.entries)
    && PhaseOk(x)
    && LogsOk(x)
    && ScanOk(disk, x.scan)
  }

  ghost predicate DiskOk(disk: map<nat, Image>, nextNode: nat) {
    forall r :: r in disk ==> Healthy(disk[r]) && disk[r].node < nextNode
  }

  ghost predicate Inv(s: Sys) {
    && DiskOk(s.disk, s.nextNode)
    && forall b :: 0 <= b < |s.backends| ==> BackendOk(s.disk, s.nextNode, s.backends[b])
  }

  /** At the start no backend has cached anything. */
  ghost predicate Init(s: Sys) {
    && DiskOk(s.disk, s.nextNode)
    && forall b :: 0 <= b < |s.backends| ==>
         s.backends[b] == Backend(State(map[], 0), false, false, [], [], Idle, Running)
  }
}
