/** How fast version counters grow: each flush and VACUUM stamps the least version it may, so over a run no
    version passes the first ones by more than the steps that can raise one. */
module ProtocolVersions {
  import opened IdMap
  import opened Relfile
  import opened Vacuum
  import opened Cache
  import opened Xact
  import opened Insert
  import opened Protocol
  import opened ProtocolSafety
  import opened ProtocolTheorems

  // ---------------------------------------------------------------- one rewrite

  /** A flush raises the version of its index to the next one, or to what its entry proposes if that is more. */
  lemma FlushRaises(s: Sys, t: Sys, b: nat, k: CacheKey, maxPct: int)
    requires Inv(s) && FlushOneNext(s, t, b, k, maxPct) && k.relOid in s.disk
    ensures var e := s.backends[b].cache.entries[k];
            && e.persist.Some? && k.relOid in t.disk
            && var before, proposed := s.disk[k.relOid].version, e.persist.value.version;
               t.disk[k.relOid].version == if proposed > before then proposed else before + 1
  {
    hide Inv;
    var e := s.backends[b].cache.entries[k];
    FlushStamps(s.disk[k.relOid], e.index.rows, e.persist.value.touchedIds, e.persist.value.version, maxPct);
  }

  /** VACUUM raises it to the next one, and only when it found a dead row. */
  lemma VacuumRaises(s: Sys, t: Sys, rel: nat, gone: set<Id>)
    requires VacuumNext(s, t, rel, gone)
    ensures var img := s.disk[rel];
            t.disk[rel].version ==
              img.version + if exists i :: 0 <= i < |img.rows| && img.rows[i].id in gone then 1 else 0
  {
    VacuumMovesLittle(s.disk[rel], gone);
  }

  // ---------------------------------------------------------------- over runs

  /** No index, and no unflushed copy, is past version `v`. */
  ghost predicate NotPast(s: Sys, v: nat) {
    && (forall r :: r in s.disk ==> s.disk[r].version <= v)
    && (forall b :: 0 <= b < |s.backends| ==> EntriesNotPast(s.backends[b].cache.entries, v))
  }

  ghost predicate EntriesNotPast(entries: map<CacheKey, Entry>, v: nat) {
    forall k :: k in entries && entries[k].persist.Some? ==> entries[k].persist.value.version <= v
  }

  /** The steps that can raise a version. */
  function Raises(step: Step): nat {
    if step.InsertRow? || step.FlushOne? || step.VacuumRel? then 1 else 0
  }

  function RaisesOf(steps: seq<Step>): nat {
    if steps == [] then 0 else RaisesOf(steps[..|steps| - 1]) + Raises(steps[|steps| - 1])
  }

  lemma {:induction false} RaisesGrow(steps: seq<Step>, n: nat)
    requires n <= |steps|
    ensures RaisesOf(steps[..n]) <= RaisesOf(steps)
    decreases |steps|
  {
    if n == |steps| {
      assert steps[..n] == steps;
    } else {
      RaisesGrow(steps[..|steps| - 1], n);
      assert steps[..|steps| - 1][..n] == steps[..n];
    }
  }

  /** A rebuilt index starts at most at version `v`. */
  predicate RebuiltAt(step: Step, v: nat) {
    step.Reindex? ==> step.img.version <= v
  }

  lemma InsertNotPast(before: State, img: Image, sawEmpty: bool, capMb: int, key: CacheKey, id: Id, code: Code,
      mid: State, after: State, r: InsertResult, v: nat)
    requires InsertStep(before, img, sawEmpty, capMb, key, id, code, mid, after, r)
    requires EntriesNotPast(before.entries, v) && img.version <= v
    ensures EntriesNotPast(after.entries, v + 1)
  {
    var found := AfterMutationLookup(before, key, img.node);
    hide Upsert, Unique, CapEnforced;
    assert EntriesNotPast(found.entries, v);
    assert EntriesNotPast(mid.entries, v);
  }

  lemma ScanNotPast(s: Sys, t: Sys, b: nat, outOfCore: bool, bytes: nat, capMb: int, v: nat)
    requires ScanFetchNext(s, t, b, outOfCore, bytes, capMb) && EntriesNotPast(s.backends[b].cache.entries, v)
    ensures EntriesNotPast(t.backends[b].cache.entries, v)
  {
    hide CapEnforced;
  }

  lemma FlushNotPast(s: Sys, t: Sys, b: nat, k: CacheKey, maxPct: int, v: nat)
    requires Inv(s) && FlushOneNext(s, t, b, k, maxPct) && NotPast(s, v)
    ensures NotPast(t, v + 1)
  {
    var x := s.backends[b];
    var e := x.cache.entries[k];
    assert EntriesNotPast(x.cache.entries, v);
    if k.relOid in s.disk {
      FlushRaises(s, t, b, k, maxPct);
      FlushStamps(s.disk[k.relOid], e.index.rows, e.persist.value.touchedIds, e.persist.value.version, maxPct);
    }
    hide Inv, FlushOf;
    forall i | 0 <= i < |t.backends| ensures EntriesNotPast(t.backends[i].cache.entries, v + 1) {
      assert EntriesNotPast(s.backends[i].cache.entries, v);
    }
  }

  lemma StepNotPast(s: Sys, t: Sys, step: Step, v: nat)
    requires Inv(s) && Next(s, t, step) && NotPast(s, v) && RebuiltAt(step, v)
    ensures NotPast(t, v + Raises(step))
  {
    hide Inv, InsertStep, ScanFetchNext, FlushOneNext, VacuumImage, Healthy, Unlocked, AllValid, FlushableKeys;
    match step {
      case InsertRow(b, rel, id, code, sawEmpty, capMb, mid, r) =>
        InsertNotPast(s.backends[b].cache, s.disk[rel], sawEmpty, capMb, AmKey(rel, s.disk[rel]), id, code, mid,
                      t.backends[b].cache, r, v);
      case ScanFetch(b, outOfCore, bytes, capMb) =>
        ScanFetchShape(s, t, b, outOfCore, bytes, capMb);
        ScanQuiet(s, t, b, outOfCore, bytes, capMb);
        ScanNotPast(s, t, b, outOfCore, bytes, capMb, v);
      case FlushOne(b, k, maxPct) => FlushNotPast(s, t, b, k, maxPct, v);
      case VacuumRel(rel, gone) => VacuumRaises(s, t, rel, gone);
      case _ =>
    }
  }

  /** The initial indexes and every rebuilt one start at most at version `v`. */
  ghost predicate StartBy(states: seq<Sys>, steps: seq<Step>, v: nat)
    requires states != []
  {
    && (forall r :: r in states[0].disk ==> states[0].disk[r].version <= v)
    && (forall i :: 0 <= i < |steps| ==> RebuiltAt(steps[i], v))
  }

  lemma InitNotPast(s: Sys, v: nat)
    requires Init(s) && forall r :: r in s.disk ==> s.disk[r].version <= v
    ensures NotPast(s, v)
  {
    hide DiskOk;
  }

  /** In every run no version passes the largest initial or rebuilt one by more than the number of inserts,
      flushes and VACUUMs so far. */
  lemma {:induction false} VersionsBounded(states: seq<Sys>, steps: seq<Step>, n: nat, v: nat)
    requires IsRun(states, steps) && n <= |steps| && StartBy(states, steps, v)
    ensures NotPast(states[n], v + RaisesOf(steps[..n]))
    decreases n
  {
    hide Next, Init, Inv, NotPast;
    if n == 0 {
      InitNotPast(states[0], v);
      assert steps[..0] == [] && RaisesOf([]) == 0;
    } else {
      VersionsBounded(states, steps, n - 1, v);
      RunKeepsInvariant(states, steps, n - 1);
      var before := RaisesOf(steps[..n - 1]);
      assert Next(states[n - 1], states[n], steps[n - 1]) && RebuiltAt(steps[n - 1], v + before);
      assert steps[..n][..n - 1] == steps[..n - 1] && RaisesOf(steps[..n]) == before + Raises(steps[n - 1]);
      hide RaisesOf, StartBy;
      StepNotPast(states[n - 1], states[n], steps[n - 1], v + before);
    }
  }

  /** So in a run with few enough of them no counter is ever used up. */
  lemma CountersLast(states: seq<Sys>, steps: seq<Step>, n: nat, v: nat)
    requires IsRun(states, steps) && n <= |steps| && StartBy(states, steps, v) && v + RaisesOf(steps) < U32_MAX
    ensures VersionsLeft(states[n].disk)
  {
    hide IsRun, StartBy, EntriesNotPast;
    VersionsBounded(states, steps, n, v);
    RaisesGrow(steps, n);
  }

  /** And every flush of every commit in it goes through. */
  lemma FlushesGoThrough(states: seq<Sys>, steps: seq<Step>, n: nat, v: nat, b: nat, k: CacheKey, maxPct: int)
    requires IsRun(states, steps) && n <= |steps| && StartBy(states, steps, v) && v + RaisesOf(steps) < U32_MAX
    requires b < |states[n].backends| && k in FlushableKeys(states[n].backends[b].cache.entries)
    ensures FlushGoesThrough(states[n].disk, k, states[n].backends[b].cache.entries[k], maxPct)
  {
    assert n < |states|;
    hide IsRun, StartBy, Inv, FlushOf, AllValid, OneDirtyPerRel;
    CountersLast(states, steps, n, v);
    RunKeepsInvariant(states, steps, n);
    CommitNeverFails(states[n], b, maxPct);
  }
}
