/** What the deferred-flush protocol guarantees over every run. */
module ProtocolTheorems {
  import opened IdMap
  import opened Relfile
  import opened Vacuum
  import opened Cache
  import opened Xact
  import opened Insert
  import opened Protocol
  import opened ProtocolProof
  import opened ProtocolSafety

  /** Any finite sequence of steps. */
  ghost predicate IsPath(states: seq<Sys>, steps: seq<Step>) {
    && |states| == |steps| + 1
    && forall i :: 0 <= i < |steps| ==> Next(states[i], states[i + 1], steps[i])
  }

  /** A path from a state in which nothing is cached. */
  ghost predicate IsRun(states: seq<Sys>, steps: seq<Step>) {
    IsPath(states, steps) && Init(states[0])
  }

  lemma NothingCachedOk(disk: map<nat, Image>, nextNode: nat)
    ensures BackendOk(disk, nextNode, Backend(State(map[], 0), false, false, [], [], Idle, Running))
  {
    hide EntryOk;
  }

  lemma InitOk(s: Sys)
    requires Init(s)
    ensures Inv(s)
  {
    NothingCachedOk(s.disk, s.nextNode);
    hide DiskOk, BackendOk;
  }

  lemma {:induction false} PathKeepsInvariant(states: seq<Sys>, steps: seq<Step>, i: nat)
    requires IsPath(states, steps) && Inv(states[0]) && i < |states|
    ensures Inv(states[i])
    decreases i
  {
    hide Inv, Init, Next;
    if i > 0 {
      PathKeepsInvariant(states, steps, i - 1);
      assert Next(states[i - 1], states[i], steps[i - 1]);
      NextKeeps(states[i - 1], states[i], steps[i - 1]);
    }
  }

  lemma RunKeepsInvariant(states: seq<Sys>, steps: seq<Step>, i: nat)
    requires IsRun(states, steps) && i < |states|
    ensures Inv(states[i])
  {
    hide Inv, Init, Next;
    InitOk(states[0]);
    PathKeepsInvariant(states, steps, i);
  }

  // ---------------------------------------------------------------- the simple machine

  /** What a user sees happen to the live rows of the indexes. A commit appears as one event per index. */
  datatype Event =
    | Written(rel: nat, upserts: map<Id, Code>)
    | Vacuumed(rel: nat, gone: set<Id>)
    | Rebuilt(rel: nat, rows: map<Id, Code>)
    | Quiet

  ghost function EventOf(s: Sys, step: Step): Event {
    match step
    case FlushOne(b, k, _) =>
      if b < |s.backends| then Written(k.relOid, ChangesMap(s.backends[b].kept, k.relOid)) else Quiet
    case VacuumRel(rel, gone) => Vacuumed(rel, gone)
    case Reindex(rel, img) => Rebuilt(rel, Live(img))
    case _ => Quiet
  }

  function Apply(ev: Event, rel: nat, m: map<Id, Code>): map<Id, Code> {
    match ev
    case Written(r, upserts) => if r == rel then m + upserts else m
    case Vacuumed(r, gone) => if r == rel then m - gone else m
    case Rebuilt(r, rows) => if r == rel then rows else m
    case Quiet => m
  }

  lemma FlushedEntryLive(disk: map<nat, Image>, nextNode: nat, kept: seq<Change>, k: CacheKey, e: Entry, maxPct: int)
    requires EntryOk(disk, nextNode, kept, k, e) && Flushable(e) && k.relOid in disk && Healthy(disk[k.relOid])
    requires FlushOf(e, disk[k.relOid], maxPct).Flushed?
    ensures Live(FlushOf(e, disk[k.relOid], maxPct).img) == Live(disk[k.relOid]) + ChangesMap(kept, k.relOid)
  {
    var p := e.persist.value;
    FlushLive(disk[k.relOid], e.index.rows, p.touchedIds, p.version, maxPct);
  }

  /** Each flush of a commit changes the live rows of its index by exactly the transaction's waiting upserts,
      the last value for each id, whatever other backends and VACUUM did since the copy was loaded, between
      the flushes of this commit too; every other index is left alone. */
  lemma FlushExact(s: Sys, t: Sys, b: nat, k: CacheKey, maxPct: int, rel: nat)
    requires Inv(s) && FlushOneNext(s, t, b, k, maxPct) && rel in s.disk
    ensures rel in t.disk
    ensures rel == k.relOid ==> Live(t.disk[rel]) == Live(s.disk[rel]) + ChangesMap(s.backends[b].kept, rel)
    ensures rel != k.relOid ==> t.disk[rel] == s.disk[rel]
  {
    hide Live, FlushOf, ChangesMap, Healthy;
    var x := s.backends[b];
    assert BackendOk(s.disk, s.nextNode, x);
    assert EntryOk(s.disk, s.nextNode, x.kept, k, x.cache.entries[k]);
    hide EntryOk;
    if rel == k.relOid { FlushedEntryLive(s.disk, s.nextNode, x.kept, k, x.cache.entries[k], maxPct); }
  }

  lemma FlushBackend(s: Sys, t: Sys, b: nat, k: CacheKey, maxPct: int)
    requires FlushOneNext(s, t, b, k, maxPct)
    ensures b < |s.backends| && t.backends == s.backends[b := t.backends[b]]
    ensures t.backends[b].kept == s.backends[b].kept && t.backends[b].made == s.backends[b].made
  {
    hide AfterClearDirty, OutcomeOf, DiskAfterFlush, FlushGoesThrough;
  }

  lemma InsertQuiet(s: Sys, t: Sys, b: nat, rel: nat, id: Id, code: Code, sawEmpty: bool, capMb: int, mid: State,
      r: InsertResult)
    requires InsertNext(s, t, b, rel, id, code, sawEmpty, capMb, mid, r)
    ensures t.disk == s.disk
  {
  }

  lemma ScanQuiet(s: Sys, t: Sys, b: nat, outOfCore: bool, bytes: nat, capMb: int)
    requires ScanFetchNext(s, t, b, outOfCore, bytes, capMb)
    ensures t.disk == s.disk
  {
  }

  lemma RollbackQuiet(s: Sys, t: Sys, b: nat, mark: nat)
    requires AbortNext(s, t, b) || AbortSubNext(s, t, b, mark)
    ensures t.disk == s.disk
  {
  }

  lemma VacuumedLive(s: Sys, t: Sys, rel: nat, gone: set<Id>)
    requires Inv(s) && VacuumNext(s, t, rel, gone)
    ensures Live(t.disk[rel]) == Live(s.disk[rel]) - gone
  {
    VacuumLive(s.disk[rel], gone);
  }

  /** A step that is not an event writes nothing. */
  lemma QuietStep(s: Sys, t: Sys, step: Step, rel: nat)
    requires Next(s, t, step) && !step.FlushOne? && !step.VacuumRel? && !step.Reindex? && rel in t.disk
    ensures rel in s.disk && t.disk[rel] == s.disk[rel]
  {
    hide InsertNext, ScanFetchNext, AbortNext, AbortSubNext, Unlocked, AllValid, FlushableKeys;
    match step {
      case InsertRow(b, r, id, code, sawEmpty, capMb, mid, res) =>
        InsertQuiet(s, t, b, r, id, code, sawEmpty, capMb, mid, res);
      case ScanFetch(b, outOfCore, bytes, capMb) => ScanQuiet(s, t, b, outOfCore, bytes, capMb);
      case Abort(b) => RollbackQuiet(s, t, b, 0);
      case AbortSub(b, mark) => RollbackQuiet(s, t, b, mark);
      case _ =>
    }
  }

  lemma FlushMatches(s: Sys, t: Sys, b: nat, k: CacheKey, maxPct: int, rel: nat)
    requires Inv(s) && FlushOneNext(s, t, b, k, maxPct) && rel in s.disk && rel in t.disk
    ensures Live(t.disk[rel]) == Apply(EventOf(s, FlushOne(b, k, maxPct)), rel, Live(s.disk[rel]))
  {
    hide Inv, FlushOneNext, Live, ChangesMap;
    FlushExact(s, t, b, k, maxPct, rel);
    FlushBackend(s, t, b, k, maxPct);
  }

  lemma VacuumMatches(s: Sys, t: Sys, r: nat, gone: set<Id>, rel: nat)
    requires Inv(s) && VacuumNext(s, t, r, gone) && rel in s.disk && rel in t.disk
    ensures Live(t.disk[rel]) == Apply(EventOf(s, VacuumRel(r, gone)), rel, Live(s.disk[rel]))
  {
    hide Inv, Live, VacuumImage;
    if r == rel { VacuumedLive(s, t, r, gone); }
  }

  lemma ReindexMatches(s: Sys, t: Sys, r: nat, img: Image, rel: nat)
    requires ReindexNext(s, t, r, img) && rel in s.disk && rel in t.disk
    ensures Live(t.disk[rel]) == Apply(EventOf(s, Reindex(r, img)), rel, Live(s.disk[rel]))
  {
    hide Live, Healthy, Unlocked;
  }

  lemma StepMatches(s: Sys, t: Sys, step: Step, rel: nat)
    requires Inv(s) && Next(s, t, step) && rel in s.disk && rel in t.disk
    ensures Live(t.disk[rel]) == Apply(EventOf(s, step), rel, Live(s.disk[rel]))
  {
    if !step.FlushOne? && !step.VacuumRel? && !step.Reindex? {
      QuietStep(s, t, step, rel);
      assert EventOf(s, step) == Quiet;
    }
    hide Inv, FlushOneNext, VacuumNext, ReindexNext, Live, EventOf;
    match step {
      case FlushOne(b, k, maxPct) => FlushMatches(s, t, b, k, maxPct, rel);
      case VacuumRel(r, gone) => VacuumMatches(s, t, r, gone, rel);
      case Reindex(r, img) => ReindexMatches(s, t, r, img, rel);
      case _ =>
    }
  }

  ghost function Events(states: seq<Sys>, steps: seq<Step>): (evs: seq<Event>)
    requires |states| == |steps| + 1
    ensures |evs| == |steps| && forall i :: 0 <= i < |steps| ==> evs[i] == EventOf(states[i], steps[i])
  {
    seq(|steps|, i requires 0 <= i < |steps| => EventOf(states[i], steps[i]))
  }

  function Replay(evs: seq<Event>, rel: nat, m: map<Id, Code>): map<Id, Code> {
    if evs == [] then m else Apply(evs[|evs| - 1], rel, Replay(evs[..|evs| - 1], rel, m))
  }

  ghost predicate NeverDropped(states: seq<Sys>, rel: nat) {
    forall i :: 0 <= i < |states| ==> rel in states[i].disk
  }

  /** The protocol refines a plain map per index to which commits, VACUUMs and rebuilds are applied one
      after the other: caches, stale copies and interleaving are invisible on disk. */
  lemma {:induction false} RunMatchesReplay(states: seq<Sys>, steps: seq<Step>, rel: nat, n: nat)
    requires IsRun(states, steps) && NeverDropped(states, rel) && n <= |steps|
    ensures Live(states[n].disk[rel]) == Replay(Events(states, steps)[..n], rel, Live(states[0].disk[rel]))
    decreases n
  {
    hide Inv, Init, Next, EventOf, Apply;
    var evs := Events(states, steps);
    if n > 0 {
      RunMatchesReplay(states, steps, rel, n - 1);
      assert evs[..n][..n - 1] == evs[..n - 1] && evs[..n][n - 1] == evs[n - 1];
      RunKeepsInvariant(states, steps, n - 1);
      assert Next(states[n - 1], states[n], steps[n - 1]);
      StepMatches(states[n - 1], states[n], steps[n - 1], rel);
    }
  }

  /** The event leaves this row of this index alone. */
  predicate Spares(ev: Event, rel: nat, id: Id) {
    match ev
    case Written(r, upserts) => r != rel || id !in upserts
    case Vacuumed(r, gone) => r != rel || id !in gone
    case Rebuilt(r, _) => r != rel
    case Quiet => true
  }

  lemma SparedRow(ev: Event, rel: nat, id: Id, m: map<Id, Code>)
    requires Spares(ev, rel, id)
    ensures id in Apply(ev, rel, m) <==> id in m
    ensures id in m ==> Apply(ev, rel, m)[id] == m[id]
  {
  }

  /** A row changes only through an event that names it. A vacuumed id therefore stays gone until some
      commit upserts it again, and no commit loses or overwrites another backend's row. */
  lemma {:induction false} UnnamedRowUnchanged(states: seq<Sys>, steps: seq<Step>, rel: nat, id: Id, i: nat, j: nat)
    requires IsRun(states, steps) && NeverDropped(states, rel) && i <= j <= |steps|
    requires forall n :: i <= n < j ==> Spares(EventOf(states[n], steps[n]), rel, id)
    ensures id in Live(states[i].disk[rel]) <==> id in Live(states[j].disk[rel])
    ensures id in Live(states[i].disk[rel]) ==> Live(states[j].disk[rel])[id] == Live(states[i].disk[rel])[id]
    decreases j - i
  {
    hide Inv, Init, Next, EventOf, Spares, Apply, Live;
    if i < j {
      UnnamedRowUnchanged(states, steps, rel, id, i, j - 1);
      RunKeepsInvariant(states, steps, j - 1);
      assert Next(states[j - 1], states[j], steps[j - 1]);
      StepMatches(states[j - 1], states[j], steps[j - 1], rel);
      SparedRow(EventOf(states[j - 1], steps[j - 1]), rel, id, Live(states[j - 1].disk[rel]));
    }
  }

  // ---------------------------------------------------------------- scans

  /** The vectors a scan sees through a cached copy. A read-only copy applies the tombstones on disk by
      slot; a mutable one cannot, its slots may have moved. */
  ghost function Served(index: Stored, img: Image): map<Id, Code>
    requires index.Mutable? || index.ReadOnly? || index.Ooc?
  {
    if index.Mutable? then ToMap(index.rows) else Live(img.(rows := index.rows))
  }

  lemma NoTombstonesLive(img: Image)
    requires img.dead == []
    ensures Live(img) == ToMap(img.rows)
  {
    var got, want := Live(img), ToMap(img.rows);
    forall k: Id ensures k in got <==> k in want
                 ensures k in got ==> got[k] == want[k]
    {
    }
    assert got == want;
  }

  /** In every reachable state, whatever scan handle a clean entry labelled with the current relfilenode
      and version gives out serves exactly the live rows on disk; a stale copy never carries that label. */
  lemma CleanHitIsLive(s: Sys, b: nat, rel: nat)
    requires Inv(s) && b < |s.backends| && rel in s.disk
    requires var key := AmKey(rel, s.disk[rel]);
             ScanHit(s.backends[b].cache, key, s.disk[rel].node, s.disk[rel].version)
               && !s.backends[b].cache.entries[key].dirty
    ensures var e := s.backends[b].cache.entries[AmKey(rel, s.disk[rel])];
            (e.index.Mutable? || e.index.ReadOnly? || e.index.Ooc?) && Served(e.index, s.disk[rel]) == Live(s.disk[rel])
  {
    var img := s.disk[rel];
    var key := AmKey(rel, img);
    assert BackendOk(s.disk, s.nextNode, s.backends[b]);
    assert EntryOk(s.disk, s.nextNode, s.backends[b].kept, key, s.backends[b].cache.entries[key]);
    if s.backends[b].cache.entries[key].index.Mutable? {
      NoTombstonesLive(img);
    } else {
      assert img.(rows := img.rows) == img;
    }
  }

  /** In every reachable state the mirror kept beside a mutable copy agrees with it. */
  lemma MirrorsAgree(s: Sys, b: nat, k: CacheKey)
    requires Inv(s) && b < |s.backends| && k in s.backends[b].cache.entries
             && s.backends[b].cache.entries[k].index.Mutable?
    ensures var e := s.backends[b].cache.entries[k];
            && e.persist.Some? && Unique(e.index.rows)
            && e.persist.value.nVectors == |e.index.rows|
            && multiset(e.persist.value.liveIds) == multiset(Ids(e.index.rows))
            && (forall id :: id in e.persist.value.touchedIds ==> id in ToMap(e.index.rows))
            && (e.dirty <==> e.persist.value.touchedIds != [])
  {
    assert BackendOk(s.disk, s.nextNode, s.backends[b]);
    assert EntryOk(s.disk, s.nextNode, s.backends[b].kept, k, s.backends[b].cache.entries[k]);
  }

  // ---------------------------------------------------------------- rollbacks

  lemma {:induction false} ChangesConcat(a: seq<Change>, b: seq<Change>, rel: nat)
    ensures ChangesMap(a + b, rel) == ChangesMap(a, rel) + ChangesMap(b, rel)
  {
    hide ChangesMap;
    if b == [] {
      assert a + b == a && ChangesMap(b, rel) == map[] by { NoneOfRel(b, rel); }
      assert ChangesMap(a, rel) + map[] == ChangesMap(a, rel);
    } else {
      var init, last := b[..|b| - 1], b[|b| - 1];
      ChangesConcat(a, init, rel);
      assert a + b == (a + init) + [last] && b == init + [last];
      LogAppend(a + init, last, rel);
      LogAppend(init, last, rel);
    }
  }

  /** The upserts a savepoint rollback or a cache wipe took out of the cache although the transaction kept them. */
  ghost function Lost(x: Backend): seq<Change>
    requires LogsOk(x)
  {
    x.made[..|x.made| - |x.kept|]
  }

  lemma LogSplit(x: Backend, rel: nat)
    requires LogsOk(x)
    ensures x.made == Lost(x) + x.kept
    ensures ChangesMap(x.made, rel) == ChangesMap(Lost(x), rel) + ChangesMap(x.kept, rel)
  {
    hide ChangesMap;
    assert x.made == Lost(x) + x.kept;
    ChangesConcat(Lost(x), x.kept, rel);
  }

  lemma FlushingLogs(s: Sys, t: Sys, b: nat, k: CacheKey, maxPct: int)
    requires Inv(s) && FlushOneNext(s, t, b, k, maxPct)
    ensures b < |s.backends| && LogsOk(s.backends[b])
  {
    hide FlushOneNext, EntriesOk;
    assert b < |s.backends| by { FlushBackend(s, t, b, k, maxPct); }
    assert BackendOk(s.disk, s.nextNode, s.backends[b]);
  }

  /** Nothing rolled back reaches disk: what a commit writes is a suffix of the upserts still standing. */
  lemma CommitWritesOnlyStanding(s: Sys, t: Sys, b: nat, k: CacheKey, maxPct: int, rel: nat, id: Id)
    requires Inv(s) && FlushOneNext(s, t, b, k, maxPct) && rel in s.disk
    ensures LogsOk(s.backends[b]) && s.backends[b].made == Lost(s.backends[b]) + s.backends[b].kept
    ensures id in Live(t.disk[rel]) && (id !in Live(s.disk[rel]) || Live(t.disk[rel])[id] != Live(s.disk[rel])[id]) ==>
              && id in ChangesMap(s.backends[b].made, rel)
              && Live(t.disk[rel])[id] == ChangesMap(s.backends[b].made, rel)[id]
  {
    FlushingLogs(s, t, b, k, maxPct);
    FlushExact(s, t, b, k, maxPct, rel);
    hide *;
    LogSplit(s.backends[b], rel);
  }

  /** The lost upserts made no difference: each was written again later, or was on disk already. */
  ghost predicate LossHarmless(live: map<Id, Code>, lost: map<Id, Code>, kept: map<Id, Code>) {
    forall id :: id in lost ==> id in kept || (id in live && live[id] == lost[id])
  }

  lemma LossHarmlessIff(live: map<Id, Code>, lost: map<Id, Code>, kept: map<Id, Code>)
    ensures live + kept == live + (lost + kept) <==> LossHarmless(live, lost, kept)
  {
    if live + kept == live + (lost + kept) {
      forall id | id in lost && id !in kept ensures id in live && live[id] == lost[id] {
        assert id in live + (lost + kept) && (live + (lost + kept))[id] == lost[id];
      }
    }
  }

  /** All of the committing transaction's upserts of an index are on disk after its flush exactly when those
      no longer waiting made no difference. */
  lemma CommitCompleteIff(s: Sys, t: Sys, b: nat, k: CacheKey, maxPct: int)
    requires Inv(s) && FlushOneNext(s, t, b, k, maxPct) && k.relOid in s.disk
    ensures LogsOk(s.backends[b])
    ensures var rel, x := k.relOid, s.backends[b];
            Live(t.disk[rel]) == Live(s.disk[rel]) + ChangesMap(x.made, rel)
            <==> LossHarmless(Live(s.disk[rel]), ChangesMap(Lost(x), rel), ChangesMap(x.kept, rel))
  {
    var rel := k.relOid;
    FlushingLogs(s, t, b, k, maxPct);
    FlushExact(s, t, b, k, maxPct, rel);
    hide *;
    LogSplit(s.backends[b], rel);
    LossHarmlessIff(Live(s.disk[rel]), ChangesMap(Lost(s.backends[b]), rel), ChangesMap(s.backends[b].kept, rel));
  }

  /** Straight after a savepoint rollback nothing waits any more, whatever was inserted before the savepoint:
      a commit from there flushes no index, and the rows below the mark are committed and not indexed. */
  lemma SavepointLosesEarlierRow(s: Sys, t: Sys, u: Sys, b: nat, mark: nat)
    requires Inv(s) && AbortSubNext(s, t, b, mark) && CommitBeginNext(t, u, b)
    ensures u.backends[b].made == s.backends[b].made[..mark] && u.backends[b].phase == Flushing({})
  {
    assert BackendOk(s.disk, s.nextNode, s.backends[b]);
    RolledBackOk(s.disk, s.nextNode, s.backends[b]);
    hide EntriesOk, EntryOk, AllValid;
    assert FlushableKeys(t.backends[b].cache.entries) == {};
  }
}
