/** The backend's code takes the protocol's steps: each method below runs the imperative cache and commit
    code in a reachable state and ends in a state the step relation allows. */
module ProtocolCode {
  import opened Options
  import opened IdMap
  import opened Relfile
  import opened Cache
  import opened Xact
  import opened Insert
  import opened Protocol
  import opened ProtocolSafety
  import opened ProtocolTheorems
  import opened ProtocolCommits
  import opened ProtocolHistory

  /** The real cache and disk are the ones backend `b` has in state `s`. */
  ghost predicate Runs(cache: BackendCache, store: RelfileStore, s: Sys, b: nat)
    reads cache, store
  {
    && cache.Valid() && b < |s.backends|
    && s.backends[b].cache == cache.View() && s.disk == store.images
  }

  // ---------------------------------------------------------------- PreCommit among other backends

  /** What the others may do while backend `b` holds no lock: any steps of theirs. */
  ghost predicate OthersPath(states: seq<Sys>, steps: seq<Step>, b: nat) {
    IsPath(states, steps) && forall n :: 0 <= n < |steps| ==> Actor(steps[n]) != Some(b)
  }

  /** Runs between two flushes. Its callers know only this contract, so they hold whatever others do. */
  method OthersRun(store: RelfileStore, ghost s: Sys, ghost b: nat)
    returns (ghost states: seq<Sys>, ghost steps: seq<Step>)
    requires s.disk == store.images
    modifies store
    ensures OthersPath(states, steps, b) && states[0] == s && states[|steps|].disk == store.images
  {
    states, steps := [s], [];
  }

  lemma {:induction false} OthersKeepBackend(states: seq<Sys>, steps: seq<Step>, b: nat, n: nat)
    requires OthersPath(states, steps, b) && b < |states[0].backends| && n <= |steps|
    ensures b < |states[n].backends| && states[n].backends[b] == states[0].backends[b]
    decreases n
  {
    hide Next;
    if n > 0 {
      OthersKeepBackend(states, steps, b, n - 1);
      assert Next(states[n - 1], states[n], steps[n - 1]);
      OthersLeaveBackend(states[n - 1], states[n], steps[n - 1], b);
    }
  }

  /** The path so far, starting with the begin of the commit of `b` and not yet at its end. */
  ghost predicate Committing(states: seq<Sys>, steps: seq<Step>, s: Sys, b: nat) {
    && IsPath(states, steps) && states[0] == s && |steps| > 0 && steps[0] == CommitBegin(b)
    && forall n :: 0 <= n < |steps| ==> steps[n] != CommitEnd(b)
  }

  lemma PathJoin(states: seq<Sys>, steps: seq<Step>, more: seq<Sys>, moreSteps: seq<Step>, s: Sys, b: nat)
    requires Committing(states, steps, s, b) && OthersPath(more, moreSteps, b) && more[0] == states[|steps|]
    ensures Committing(states + more[1..], steps + moreSteps, s, b)
    ensures |states + more[1..]| == |steps + moreSteps| + 1
    ensures (states + more[1..])[|steps + moreSteps|] == more[|moreSteps|]
  {
    hide Next;
    var all, acts := states + more[1..], steps + moreSteps;
    forall n | 0 <= n < |acts| ensures Next(all[n], all[n + 1], acts[n]) && acts[n] != CommitEnd(b) {
      if n >= |steps| {
        assert Next(more[n - |steps|], more[n - |steps| + 1], moreSteps[n - |steps|]);
        assert Actor(moreSteps[n - |steps|]) != Some(b);
      }
    }
  }

  lemma PathPush(states: seq<Sys>, steps: seq<Step>, t: Sys, step: Step, s: Sys, b: nat)
    requires Committing(states, steps, s, b) && Next(states[|steps|], t, step) && step != CommitEnd(b)
    ensures Committing(states + [t], steps + [step], s, b)
  {
    hide Next;
    var all, acts := states + [t], steps + [step];
    forall n | 0 <= n < |acts| ensures Next(all[n], all[n + 1], acts[n]) {
      if n < |steps| { assert all[n + 1] == states[n + 1]; }
    }
  }

  lemma PathEnd(states: seq<Sys>, steps: seq<Step>, t: Sys, s: Sys, b: nat)
    requires Committing(states, steps, s, b) && Next(states[|steps|], t, CommitEnd(b)) && b < |s.backends|
    ensures IsCommit(states + [t], steps + [CommitEnd(b)], b, 0, |steps|)
  {
    hide Next;
    var all, acts := states + [t], steps + [CommitEnd(b)];
    forall n | 0 <= n < |acts| ensures Next(all[n], all[n + 1], acts[n]) {
      if n < |steps| { assert all[n + 1] == states[n + 1]; }
    }
  }

  /** The drained entries from `i` on are still in the cache as they were drained. */
  ghost predicate Pending(x: Backend, dirty: seq<DirtyEntry>, i: nat)
    requires i <= |dirty|
  {
    && x.phase.Flushing? && !x.failed
    && (forall k :: k in x.phase.todo <==> exists m :: i <= m < |dirty| && dirty[m].key == k)
    && Drained(x.cache.entries, dirty[i..])
  }

  lemma PendingStart(x: Backend, dirty: seq<DirtyEntry>)
    requires !x.failed && Drained(x.cache.entries, dirty)
    requires forall k :: k in x.cache.entries && Flushable(x.cache.entries[k]) ==>
              exists i :: 0 <= i < |dirty| && dirty[i].key == k
    ensures Pending(x.(registered := false, phase := Flushing(FlushableKeys(x.cache.entries))), dirty, 0)
  {
    assert dirty[0..] == dirty;
  }

  lemma PendingNext(x: Backend, y: Backend, dirty: seq<DirtyEntry>, i: nat, outcome: Option<FlushOutcome>)
    requires i < |dirty| && Pending(x, dirty, i)
    requires y == x.(cache := AfterClearDirty(x.cache, dirty[i].key, outcome),
                     phase := Flushing(x.phase.todo - {dirty[i].key}))
    ensures Pending(y, dirty, i + 1)
  {
    var rest := dirty[i..];
    assert dirty[i + 1..] == rest[1..] && rest[0] == dirty[i];
    forall m | i < m < |dirty| ensures dirty[m].key != dirty[i].key && dirty[m] == rest[m - i] {
      assert rest[m - i] == dirty[m];
    }
    var next := dirty[i + 1..];
    forall m | 0 <= m < |next|
      ensures var d := next[m];
              && d.key in y.cache.entries && Flushable(y.cache.entries[d.key])
              && d.rows == y.cache.entries[d.key].index.rows && d.persist == y.cache.entries[d.key].persist.value
    {
      assert next[m] == rest[m + 1];
      OthersUntouched(x.cache, dirty[i].key, outcome, rest[m + 1].key);
    }
  }

  /** Flushes one drained entry in a reachable state. No guard fires, and it is the protocol's step. */
  method FlushNext(cache: BackendCache, store: RelfileStore, d: DirtyEntry, maxPct: int, ghost s: Sys, ghost b: nat)
    returns (ghost t: Sys)
    requires Runs(cache, store, s, b) && Inv(s) && VersionsLeft(store.images)
    requires s.backends[b].phase.Flushing? && d.key in s.backends[b].phase.todo
    requires d.key in cache.entries && Flushable(cache.entries[d.key])
    requires d.rows == cache.entries[d.key].index.rows && d.persist == cache.entries[d.key].persist.value
    modifies cache, store
    ensures Runs(cache, store, t, b) && FlushOneNext(s, t, b, d.key, maxPct) && Inv(t)
    ensures exists outcome ::
              t.backends[b] == s.backends[b].(
                cache := AfterClearDirty(s.backends[b].cache, d.key, outcome),
                phase := Flushing(s.backends[b].phase.todo - {d.key}))
  {
    ghost var x, e := s.backends[b], s.backends[b].cache.entries[d.key];
    CommitNeverFails(s, b, maxPct);
    hide Inv;
    var ok := FlushAndClear(cache, store, d, maxPct);
    assert ok;
    t := WithBackend(s, b, x.(cache := cache.View(), phase := Flushing(x.phase.todo - {d.key}))).(disk := store.images);
    hide NoneRefused, AllValid, FlushOf, AfterClearDirty;
    FlushOneKeeps(s, t, b, d.key, maxPct);
  }

  /** Drained and validated: the commit has begun. */
  lemma BeginCommit(cache: BackendCache, store: RelfileStore, dirty: seq<DirtyEntry>, s: Sys, b: nat) returns (t: Sys)
    requires Runs(cache, store, s, b) && Inv(s)
    requires s.backends[b].registered && s.backends[b].phase.Running? && !s.backends[b].failed
    requires Drained(cache.entries, dirty)
    requires forall k :: k in cache.entries && Flushable(cache.entries[k]) ==>
              exists i :: 0 <= i < |dirty| && dirty[i].key == k
    ensures CommitBeginNext(s, t, b) && Runs(cache, store, t, b) && Inv(t) && Pending(t.backends[b], dirty, 0)
    ensures forall i :: 0 <= i < |dirty| ==> SnapshotValid(dirty[i].rows, dirty[i].persist)
  {
    var x := s.backends[b];
    CommitNeverFails(s, b, 0);
    PendingStart(x, dirty);
    t := WithBackend(s, b, x.(registered := false, phase := Flushing(FlushableKeys(x.cache.entries))));
    hide Inv, Pending, NoneRefused;
    CommitBeginKeeps(s, t, b);
  }

  lemma PathBegin(s: Sys, t: Sys, b: nat)
    requires CommitBeginNext(s, t, b)
    ensures Committing([s, t], [CommitBegin(b)], s, b)
  {
    hide CommitBeginNext;
    assert Next(s, t, CommitBegin(b));
  }

  /** Everything drained has been flushed. */
  lemma EndCommit(cache: BackendCache, store: RelfileStore, dirty: seq<DirtyEntry>, s: Sys, b: nat) returns (t: Sys)
    requires Runs(cache, store, s, b) && Inv(s) && Pending(s.backends[b], dirty, |dirty|)
    ensures Next(s, t, CommitEnd(b)) && Runs(cache, store, t, b) && Inv(t)
  {
    t := WithBackend(s, b, s.backends[b].(made := [], kept := [], phase := Running));
    assert s.backends[b].phase.todo == {};
    hide Inv;
    CommitEndKeeps(s, t, b);
  }

  /** The others run; the backend looks only at whether a version counter has been used up. */
  method LetOthersRun(cache: BackendCache, store: RelfileStore, ghost states: seq<Sys>, ghost steps: seq<Step>,
      ghost s: Sys, ghost cur: Sys, ghost b: nat)
    returns (left: bool, ghost states': seq<Sys>, ghost steps': seq<Step>, ghost cur': Sys)
    requires |states| == |steps| + 1 && cur == states[|steps|] && Committing(states, steps, s, b)
    requires Runs(cache, store, cur, b) && Inv(cur)
    modifies store
    ensures |states'| == |steps'| + 1 && cur' == states'[|steps'|] && Committing(states', steps', s, b)
    ensures Runs(cache, store, cur', b) && Inv(cur') && cur'.backends[b] == cur.backends[b]
    ensures left <==> VersionsLeft(store.images)
  {
    hide Inv, Next, Committing;
    ghost var more, moreSteps := OthersRun(store, cur, b);
    PathJoin(states, steps, more, moreSteps, s, b);
    PathKeepsInvariant(more, moreSteps, |moreSteps|);
    OthersKeepBackend(more, moreSteps, b, |moreSteps|);
    states', steps', cur' := states + more[1..], steps + moreSteps, more[|moreSteps|];
    left := VersionsLeft(store.images);
  }

  lemma PendingHere(cache: BackendCache, store: RelfileStore, s: Sys, b: nat, dirty: seq<DirtyEntry>, i: nat)
    requires Runs(cache, store, s, b) && i < |dirty| && Pending(s.backends[b], dirty, i)
    ensures var x, d := s.backends[b], dirty[i];
            && x.phase.Flushing? && d.key in x.phase.todo && x.cache == cache.View()
            && d.key in cache.entries && Flushable(cache.entries[d.key])
            && d.rows == cache.entries[d.key].index.rows && d.persist == cache.entries[d.key].persist.value
  {
    assert dirty[i..][0] == dirty[i];
  }

  method FlushPending(cache: BackendCache, store: RelfileStore, dirty: seq<DirtyEntry>, i: nat, maxPct: int,
      ghost states: seq<Sys>, ghost steps: seq<Step>, ghost s: Sys, ghost cur: Sys, ghost b: nat)
    returns (ghost states': seq<Sys>, ghost steps': seq<Step>, ghost cur': Sys)
    requires |states| == |steps| + 1 && cur == states[|steps|] && Committing(states, steps, s, b)
    requires Runs(cache, store, cur, b) && Inv(cur) && VersionsLeft(store.images)
    requires i < |dirty| && Pending(cur.backends[b], dirty, i)
    modifies cache, store
    ensures |states'| == |steps'| + 1 && cur' == states'[|steps'|] && Committing(states', steps', s, b)
    ensures Runs(cache, store, cur', b) && Inv(cur') && Pending(cur'.backends[b], dirty, i + 1)
  {
    hide Inv, Committing, Pending, FlushOneNext, Drained;
    PendingHere(cache, store, cur, b, dirty, i);
    cur' := FlushNext(cache, store, dirty[i], maxPct, cur, b);
    ghost var outcome :|
      cur'.backends[b] == cur.backends[b].(
        cache := AfterClearDirty(cur.backends[b].cache, dirty[i].key, outcome),
        phase := Flushing(cur.backends[b].phase.todo - {dirty[i].key}));
    PendingNext(cur.backends[b], cur'.backends[b], dirty, i, outcome);
    ghost var step := FlushOne(b, dirty[i].key, maxPct);
    assert Next(cur, cur', step);
    PathPush(states, steps, cur', step, s, b);
    states', steps' := states + [cur'], steps + [step];
  }

  /** PreCommit, then the end of the transaction. The others may do anything between two flushes. It stops
      early only where a version counter is used up; otherwise it is a whole commit of the protocol. */
  method Commit(cache: BackendCache, store: RelfileStore, maxPct: int, ghost s: Sys, ghost b: nat)
    returns (done: bool, ghost states: seq<Sys>, ghost steps: seq<Step>)
    requires Runs(cache, store, s, b) && Inv(s)
    requires s.backends[b].registered && s.backends[b].phase.Running? && !s.backends[b].failed
    modifies cache, store
    ensures |states| == |steps| + 1 && states[0] == s
    ensures Runs(cache, store, states[|steps|], b) && Inv(states[|steps|])
    ensures done ==> |steps| > 0 && IsCommit(states, steps, b, 0, |steps| - 1)
    ensures !done ==> !VersionsLeft(store.images)
  {
    hide Inv;
    var dirty := cache.DrainDirty();
    var valid := ValidateAll(dirty);
    ghost var cur := BeginCommit(cache, store, dirty, s, b);
    PathBegin(s, cur, b);
    states, steps := [s, cur], [CommitBegin(b)];
    hide Runs, Pending, Committing, FlushOneNext, CommitBeginNext;
    for i := 0 to |dirty|
      invariant |states| == |steps| + 1 && cur == states[|steps|] && states[0] == s
      invariant Committing(states, steps, s, b) && Runs(cache, store, cur, b) && Inv(cur)
      invariant b < |cur.backends| && Pending(cur.backends[b], dirty, i)
    {
      var left;
      left, states, steps, cur := LetOthersRun(cache, store, states, steps, s, cur, b);
      if !left {
        return false, states, steps;
      }
      states, steps, cur := FlushPending(cache, store, dirty, i, maxPct, states, steps, s, cur, b);
    }
    done := true;
    ghost var t := EndCommit(cache, store, dirty, cur, b);
    PathEnd(states, steps, t, s, b);
    states, steps := states + [t], steps + [CommitEnd(b)];
  }

  /** One inserted row. */
  method InsertOne(cache: BackendCache, store: RelfileStore, rel: nat, id: Id, code: Code, sawEmpty: bool, capMb: int,
      ghost s: Sys, ghost b: nat)
    returns (r: InsertResult, ghost t: Sys, ghost mid: State)
    requires Runs(cache, store, s, b) && Inv(s) && rel in store.images && id != 0
    requires !s.backends[b].failed && s.backends[b].phase.Running?
    requires sawEmpty ==> Unique(store.images[rel].rows)
    modifies cache
    ensures Runs(cache, store, t, b) && InsertNext(s, t, b, rel, id, code, sawEmpty, capMb, mid, r) && Inv(t)
  {
    ghost var x := s.backends[b];
    hide Inv;
    var img := store.images[rel];
    r, mid := AmInsert(cache, img, sawEmpty, AmKey(rel, img), id, code, capMb);
    t := WithBackend(s, b,
           if r.Inserted? then x.(cache := cache.View(), registered := true,
                                  made := x.made + [Change(rel, id, code)], kept := x.kept + [Change(rel, id, code)])
           else x.(cache := cache.View(), failed := true));
    InsertKeeps(s, t, b, rel, id, code, sawEmpty, capMb, mid, r);
  }

  /** Looks the index up under the label the scan read; on a miss loads it under that label. */
  method FetchHandle(cache: BackendCache, img: Image, key: CacheKey, node: nat, version: nat, outOfCore: bool,
      bytes: nat, capMb: int) returns (served: Stored)
    requires cache.Valid()
    modifies cache
    ensures cache.Valid()
    ensures var before, hit := old(cache.View()), ScanHit(old(cache.View()), key, node, version);
            && served == (if hit then before.entries[key].index else LoadedCopy(img, outOfCore))
            && (if hit then cache.View() == AfterScanLookup(before, key, node, version)
                else
                  var found := AfterScanLookup(before, key, node, version);
                  var loaded := AfterInstall(found, key, LoadedCopy(img, outOfCore), bytes, node, version, None);
                  cache.clock == found.clock + 1 && Capped(loaded.entries, cache.entries, capMb))
  {
    var hit := cache.ScanLookup(key, node, version);
    if hit.Some? {
      served := hit.value;
    } else {
      served := LoadedCopy(img, outOfCore);
      cache.Install(key, served, bytes, node, version, None, capMb);
    }
  }

  /** What a scan is handed when its label is current and the backend has nothing unflushed. */
  lemma HandleIsLive(s: Sys, b: nat, rel: nat, outOfCore: bool, served: Stored)
    requires Inv(s) && b < |s.backends| && rel in s.disk
    requires var img := s.disk[rel]; var st := s.backends[b].cache; var key := AmKey(rel, img);
             && CleanAt(st, key)
             && served ==
                  if ScanHit(st, key, img.node, img.version) then st.entries[key].index else LoadedCopy(img, outOfCore)
    ensures (served.Mutable? || served.ReadOnly? || served.Ooc?) && Served(served, s.disk[rel]) == Live(s.disk[rel])
  {
    var img := s.disk[rel];
    if ScanHit(s.backends[b].cache, AmKey(rel, img), img.node, img.version) {
      CleanHitIsLive(s, b, rel);
    } else {
      assert img.(rows := img.rows) == img;
    }
  }

  /** A scan that read the meta page earlier: use the cached copy if its label matches, else load the rows
      and file them under the version read then. What it gets is the handle of the protocol's step. If nothing
      was written since and the backend itself has nothing unflushed, that copy serves exactly the live rows
      on disk. */
  method ScanFetchOne(cache: BackendCache, store: RelfileStore, rel: nat, node: nat, version: nat, outOfCore: bool,
      bytes: nat, capMb: int, ghost s: Sys, ghost b: nat)
    returns (served: Stored, ghost t: Sys)
    requires Runs(cache, store, s, b) && Inv(s) && s.backends[b].scan == Opened(rel, node, version)
             && rel in store.images
    requires s.backends[b].phase.Running?
    modifies cache
    ensures Runs(cache, store, t, b) && ScanFetchNext(s, t, b, outOfCore, bytes, capMb) && Inv(t)
    ensures served == Handed(s, b, outOfCore)
    ensures var img := store.images[rel];
            CleanAt(s.backends[b].cache, AmKey(rel, img)) && node == img.node && version == img.version ==>
              (served.Mutable? || served.ReadOnly? || served.Ooc?) && Served(served, img) == Live(img)
  {
    ghost var x := s.backends[b];
    var img := store.images[rel];
    hide Inv, AfterScanLookup, AfterInstall, Evicted, ScanHit, Live, Served, CleanAt;
    served := FetchHandle(cache, img, AmKey(rel, img), node, version, outOfCore, bytes, capMb);
    t := WithBackend(s, b, x.(cache := cache.View(), scan := Idle));
    if CleanAt(x.cache, AmKey(rel, img)) && node == img.node && version == img.version {
      HandleIsLive(s, b, rel, outOfCore, served);
    }
    ScanFetchKeeps(s, t, b, outOfCore, bytes, capMb);
  }

  /** The Abort callback, when one is registered. */
  method Rollback(cache: BackendCache, store: RelfileStore, registered: bool, ghost s: Sys, ghost b: nat)
    returns (ghost t: Sys)
    requires Runs(cache, store, s, b) && Inv(s) && registered == s.backends[b].registered
             && s.backends[b].phase.Running?
    modifies cache
    ensures Runs(cache, store, t, b) && AbortNext(s, t, b) && Inv(t)
  {
    hide Inv;
    if registered {
      cache.InvalidateDirty();
    }
    t := WithBackend(s, b, Backend(cache.View(), false, false, [], [], Idle, Running));
    AbortKeeps(s, t, b);
  }

  /** The AbortSub callback. */
  method RollbackToSavepoint(cache: BackendCache, store: RelfileStore, registered: bool, ghost mark: nat,
      ghost s: Sys, ghost b: nat)
    returns (ghost t: Sys)
    requires Runs(cache, store, s, b) && Inv(s) && registered == s.backends[b].registered
    requires mark <= |s.backends[b].made| && s.backends[b].phase.Running?
    modifies cache
    ensures Runs(cache, store, t, b) && AbortSubNext(s, t, b, mark) && Inv(t)
  {
    ghost var x := s.backends[b];
    hide Inv;
    if registered {
      cache.InvalidateDirty();
    }
    t := WithBackend(s, b,
      x.(cache := cache.View(), failed := false, made := x.made[..mark], kept := [], scan := Idle));
    AbortSubKeeps(s, t, b, mark);
  }
}
