/** Whole commits and whole transactions inside a run: which flushes a commit makes while others write in
    between, and when a commit puts every standing upsert on disk. */
module ProtocolCommits {
  import opened Options
  import opened Relfile
  import opened Vacuum
  import opened Cache
  import opened Xact
  import opened Insert
  import opened Protocol
  import opened ProtocolProof
  import opened ProtocolTheorems

  /** The backend whose memory a step may change. */
  function Actor(step: Step): Option<nat> {
    match step
    case InsertRow(b, _, _, _, _, _, _, _) => Some(b)
    case ScanOpen(b, _) => Some(b)
    case ScanFetch(b, _, _, _) => Some(b)
    case CommitBegin(b) => Some(b)
    case FlushOne(b, _, _) => Some(b)
    case CommitEnd(b) => Some(b)
    case Abort(b) => Some(b)
    case AbortSub(b, _) => Some(b)
    case InvalidateAll(b) => Some(b)
    case _ => None
  }

  lemma OthersLeaveBackend(s: Sys, t: Sys, step: Step, b: nat)
    requires Next(s, t, step) && b < |s.backends| && Actor(step) != Some(b)
    ensures b < |t.backends| && t.backends[b] == s.backends[b]
  {
    hide InsertStep, AllValid, FlushGoesThrough, DiskAfterFlush, AfterClearDirty, OutcomeOf, AfterInstall, Evicted,
         AfterScanLookup, ScanHit, VacuumImage, Healthy, Unlocked, RolledBack;
  }

  lemma BackendStays(s: Sys, t: Sys, step: Step, b: nat)
    requires Next(s, t, step) && b < |s.backends|
    ensures b < |t.backends|
  {
    hide InsertStep, AllValid, FlushGoesThrough, DiskAfterFlush, AfterClearDirty, OutcomeOf, AfterInstall, Evicted,
         AfterScanLookup, ScanHit, VacuumImage, Healthy, Unlocked, RolledBack;
  }

  lemma {:induction false} BackendThere(states: seq<Sys>, steps: seq<Step>, b: nat, n: nat)
    requires IsPath(states, steps) && b < |states[0].backends| && n < |states|
    ensures b < |states[n].backends|
    decreases n
  {
    hide Next;
    if n > 0 {
      BackendThere(states, steps, b, n - 1);
      assert Next(states[n - 1], states[n], steps[n - 1]);
      BackendStays(states[n - 1], states[n], steps[n - 1], b);
    }
  }

  // ---------------------------------------------------------------- one commit

  /** Backend `b` begins a commit at step `i` and ends it at step `j`. */
  ghost predicate IsCommit(states: seq<Sys>, steps: seq<Step>, b: nat, i: nat, j: nat) {
    && IsPath(states, steps) && b < |states[0].backends| && i < j < |steps|
    && steps[i] == CommitBegin(b) && steps[j] == CommitEnd(b)
    && forall n :: i < n < j ==> steps[n] != CommitEnd(b)
  }

  ghost predicate FlushesKey(step: Step, b: nat, k: CacheKey) {
    step.FlushOne? && step.b == b && step.key == k
  }

  /** What a backend may do inside PreCommit. */
  lemma FlushingStep(s: Sys, t: Sys, step: Step, b: nat)
    requires Next(s, t, step) && b < |s.backends| && s.backends[b].phase.Flushing? && Actor(step) == Some(b)
    ensures b < |t.backends| && (step.FlushOne? || (step.CommitEnd? && s.backends[b].phase.todo == {}))
    ensures step.FlushOne? ==> && step.key in s.backends[b].phase.todo
                               && t.backends[b].phase == Flushing(s.backends[b].phase.todo - {step.key})
                               && t.backends[b].kept == s.backends[b].kept && t.backends[b].made == s.backends[b].made
  {
    hide InsertStep, AllValid, FlushGoesThrough, DiskAfterFlush, AfterClearDirty, OutcomeOf, AfterInstall, Evicted,
         AfterScanLookup, ScanHit, RolledBack;
  }

  ghost predicate InFlush(x: Backend, begun: Backend) {
    x.phase.Flushing? && x.kept == begun.kept && x.made == begun.made
      && x.phase.todo <= FlushableKeys(begun.cache.entries)
  }

  lemma BeginFlushes(s: Sys, t: Sys, b: nat)
    requires CommitBeginNext(s, t, b)
    ensures b < |s.backends| && b < |t.backends|
    ensures InFlush(t.backends[b], s.backends[b])
            && t.backends[b].phase.todo == FlushableKeys(s.backends[b].cache.entries)
  {
    hide AllValid;
  }

  /** Between begin and end only entries that were dirty at the begin are flushed, and nothing is added. */
  lemma {:induction false} WindowFlushes(states: seq<Sys>, steps: seq<Step>, b: nat, i: nat, j: nat, n: nat)
    requires IsCommit(states, steps, b, i, j) && i < n <= j
    ensures b < |states[i].backends| && b < |states[n].backends|
            && InFlush(states[n].backends[b], states[i].backends[b])
    decreases n
  {
    hide InFlush, Next;
    BackendThere(states, steps, b, i);
    BackendThere(states, steps, b, n);
    assert Next(states[n - 1], states[n], steps[n - 1]);
    if n == i + 1 {
      assert CommitBeginNext(states[i], states[i + 1], b) by { NextIsBegin(states[i], states[i + 1], b); }
      BeginFlushes(states[i], states[i + 1], b);
    } else {
      WindowFlushes(states, steps, b, i, j, n - 1);
      WindowStep(states[i].backends[b], states[n - 1], states[n], steps[n - 1], b);
    }
  }

  lemma NextIsBegin(s: Sys, t: Sys, b: nat)
    requires Next(s, t, CommitBegin(b))
    ensures CommitBeginNext(s, t, b)
  {
  }

  lemma WindowStep(begun: Backend, s: Sys, t: Sys, step: Step, b: nat)
    requires Next(s, t, step) && b < |s.backends| && InFlush(s.backends[b], begun) && step != CommitEnd(b)
    ensures b < |t.backends| && InFlush(t.backends[b], begun)
    ensures var todo := s.backends[b].phase.todo;
            t.backends[b].phase.todo == if Actor(step) == Some(b) && step.FlushOne? then todo - {step.key} else todo
    ensures forall k :: FlushesKey(step, b, k) ==> k in s.backends[b].phase.todo
  {
    hide Next;
    if Actor(step) == Some(b) { FlushingStep(s, t, step, b); } else { OthersLeaveBackend(s, t, step, b); }
  }

  /** A flush inside the commit is of an entry that was dirty when the commit began. */
  lemma OnlyWaitingFlushed(states: seq<Sys>, steps: seq<Step>, b: nat, i: nat, j: nat, n: nat, k: CacheKey)
    requires IsCommit(states, steps, b, i, j) && i < n < j && FlushesKey(steps[n], b, k)
    ensures b < |states[i].backends| && k in FlushableKeys(states[i].backends[b].cache.entries)
  {
    hide Next;
    WindowFlushes(states, steps, b, i, j, n);
    assert Next(states[n], states[n + 1], steps[n]);
    WindowStep(states[i].backends[b], states[n], states[n + 1], steps[n], b);
  }

  /** Once flushed, an entry stays out of the list. */
  lemma {:induction false} StaysFlushed(states: seq<Sys>, steps: seq<Step>, b: nat, i: nat, j: nat, m: nat, n: nat,
      k: CacheKey)
    requires IsCommit(states, steps, b, i, j) && i < m <= n <= j
    requires b < |states[m].backends| && states[m].backends[b].phase.Flushing? && k !in states[m].backends[b].phase.todo
    ensures b < |states[n].backends| && states[n].backends[b].phase.Flushing? && k !in states[n].backends[b].phase.todo
    decreases n
  {
    hide Next;
    if m < n {
      StaysFlushed(states, steps, b, i, j, m, n - 1, k);
      WindowFlushes(states, steps, b, i, j, n - 1);
      assert Next(states[n - 1], states[n], steps[n - 1]);
      WindowStep(states[i].backends[b], states[n - 1], states[n], steps[n - 1], b);
    }
  }

  /** Where an entry leaves the list. */
  lemma {:induction false} FlushedSomewhere(states: seq<Sys>, steps: seq<Step>, b: nat, i: nat, j: nat, m: nat,
      k: CacheKey)
    returns (n: nat)
    requires IsCommit(states, steps, b, i, j) && i < m <= j
    requires b < |states[m].backends| && states[m].backends[b].phase.Flushing? && k in states[m].backends[b].phase.todo
    ensures m <= n < j && FlushesKey(steps[n], b, k)
    decreases j - m
  {
    hide Next;
    WindowFlushes(states, steps, b, i, j, m);
    assert Next(states[m], states[m + 1], steps[m]);
    if m == j {
      FlushingStep(states[j], states[j + 1], steps[j], b);
    } else if FlushesKey(steps[m], b, k) {
      n := m;
    } else {
      WindowStep(states[i].backends[b], states[m], states[m + 1], steps[m], b);
      n := FlushedSomewhere(states, steps, b, i, j, m + 1, k);
    }
  }

  /** A commit flushes each index it has waiting upserts for exactly once, at a moment of its own, and changes
      that index then by exactly those upserts, with commits, scans, VACUUMs and rebuilds of others before,
      after and between its flushes. */
  lemma CommitExact(states: seq<Sys>, steps: seq<Step>, b: nat, i: nat, j: nat, k: CacheKey) returns (n: nat)
    requires IsCommit(states, steps, b, i, j) && Inv(states[0])
    requires b < |states[i].backends| && k in FlushableKeys(states[i].backends[b].cache.entries)
    ensures i < n < j && FlushesKey(steps[n], b, k)
    ensures forall m :: i < m < j && FlushesKey(steps[m], b, k) ==> m == n
    ensures var rel := k.relOid;
            rel in states[n].disk ==>
              && rel in states[n + 1].disk
              && Live(states[n + 1].disk[rel])
                   == Live(states[n].disk[rel]) + ChangesMap(states[i].backends[b].kept, rel)
  {
    hide Next, Inv, FlushOneNext;
    assert Next(states[i], states[i + 1], steps[i]);
    NextIsBegin(states[i], states[i + 1], b);
    BeginFlushes(states[i], states[i + 1], b);
    n := FlushedSomewhere(states, steps, b, i, j, i + 1, k);
    forall m | i < m < j && FlushesKey(steps[m], b, k) ensures m == n {
      FlushedOnce(states, steps, b, i, j, m, n, k);
    }
    WindowFlushes(states, steps, b, i, j, n);
    PathKeepsInvariant(states, steps, n);
    assert Next(states[n], states[n + 1], steps[n]);
    NextIsFlush(states[n], states[n + 1], steps[n]);
    if k.relOid in states[n].disk { FlushExact(states[n], states[n + 1], b, k, steps[n].maxPct, k.relOid); }
  }

  lemma NextIsFlush(s: Sys, t: Sys, step: Step)
    requires Next(s, t, step) && step.FlushOne?
    ensures FlushOneNext(s, t, step.b, step.key, step.maxPct)
  {
    hide FlushOneNext;
  }

  lemma FlushedOnce(states: seq<Sys>, steps: seq<Step>, b: nat, i: nat, j: nat, m: nat, n: nat, k: CacheKey)
    requires IsCommit(states, steps, b, i, j) && i < m < j && i < n < j
    requires FlushesKey(steps[m], b, k) && FlushesKey(steps[n], b, k)
    ensures m == n
  {
    hide Next;
    var first, second := if m < n then m else n, if m < n then n else m;
    if first < second {
      WindowFlushes(states, steps, b, i, j, first);
      WindowFlushes(states, steps, b, i, j, second);
      assert Next(states[first], states[first + 1], steps[first]);
      WindowStep(states[i].backends[b], states[first], states[first + 1], steps[first], b);
      StaysFlushed(states, steps, b, i, j, first + 1, second, k);
      assert Next(states[second], states[second + 1], steps[second]);
      WindowStep(states[i].backends[b], states[second], states[second + 1], steps[second], b);
    }
  }

  lemma WaitingChange(log: seq<Change>, rel: nat) returns (i: nat)
    requires ChangesMap(log, rel) != map[]
    ensures i < |log| && log[i].rel == rel
  {
    if forall i :: 0 <= i < |log| ==> log[i].rel != rel { NoneOfRel(log, rel); }
    i :| 0 <= i < |log| && log[i].rel == rel;
  }

  lemma DirtyIsFlushable(disk: map<nat, Image>, nextNode: nat, kept: seq<Change>, k: CacheKey, e: Entry)
    requires EntryOk(disk, nextNode, kept, k, e) && e.dirty
    ensures Flushable(e)
  {
  }

  /** Every index with a waiting upsert has its entry in the list. */
  lemma WaitingIsFlushed(s: Sys, b: nat, rel: nat)
    requires Inv(s) && b < |s.backends| && s.backends[b].phase.Running? && ChangesMap(s.backends[b].kept, rel) != map[]
    ensures exists k :: k in FlushableKeys(s.backends[b].cache.entries) && k.relOid == rel
  {
    var x := s.backends[b];
    assert BackendOk(s.disk, s.nextNode, x);
    var i := WaitingChange(x.kept, rel);
    hide EntryOk, DiskOk, ChangesMap, LogsOk, OneDirtyPerRel;
    assert HasDirty(x.cache.entries, rel);
    var k :| k in x.cache.entries && k.relOid == rel && x.cache.entries[k].dirty;
    DirtyIsFlushable(s.disk, s.nextNode, x.kept, k, x.cache.entries[k]);
    assert k in FlushableKeys(x.cache.entries);
  }

  // ---------------------------------------------------------------- one transaction

  /** How many of the transaction's upserts stand below backend `b`'s last savepoint rollback or cache wipe. */
  ghost function LastMark(states: seq<Sys>, steps: seq<Step>, b: nat, n: nat): nat
    requires n <= |steps| < |states|
  {
    if n == 0 then 0 else
      match steps[n - 1]
      case AbortSub(c, mark) => if c == b then mark else LastMark(states, steps, b, n - 1)
      case InvalidateAll(c) =>
        if c == b then (if b < |states[n - 1].backends| then |states[n - 1].backends[b].made| else 0)
        else LastMark(states, steps, b, n - 1)
      case Abort(c) => if c == b then 0 else LastMark(states, steps, b, n - 1)
      case CommitEnd(c) => if c == b then 0 else LastMark(states, steps, b, n - 1)
      case _ => LastMark(states, steps, b, n - 1)
  }

  /** How many standing upserts wait no more. */
  ghost function Missing(x: Backend): int { |x.made| - |x.kept| }

  lemma MissingStep(s: Sys, t: Sys, step: Step, b: nat)
    requires Next(s, t, step) && b < |s.backends| && b < |t.backends| && Actor(step) == Some(b)
    ensures Missing(t.backends[b]) == (match step
              case AbortSub(_, mark) => mark
              case InvalidateAll(_) => |s.backends[b].made|
              case Abort(_) => 0
              case CommitEnd(_) => 0
              case _ => Missing(s.backends[b]))
  {
    hide InsertStep, AllValid, FlushGoesThrough, DiskAfterFlush, AfterClearDirty, OutcomeOf, AfterInstall, Evicted,
         AfterScanLookup, ScanHit, RolledBack;
  }

  /** In every run the upserts of a transaction that its commit will not write are those below that mark. */
  lemma {:induction false} MissingIsLastMark(states: seq<Sys>, steps: seq<Step>, b: nat, n: nat)
    requires IsRun(states, steps) && b < |states[0].backends| && n <= |steps|
    ensures b < |states[n].backends| && Missing(states[n].backends[b]) == LastMark(states, steps, b, n)
    decreases n
  {
    hide Next, DiskOk;
    BackendThere(states, steps, b, n);
    if n > 0 {
      hide Init, Missing;
      MissingIsLastMark(states, steps, b, n - 1);
      assert Next(states[n - 1], states[n], steps[n - 1]);
      if Actor(steps[n - 1]) == Some(b) {
        MissingStep(states[n - 1], states[n], steps[n - 1], b);
      } else {
        OthersLeaveBackend(states[n - 1], states[n], steps[n - 1], b);
      }
    }
  }

  /** Steps of backend `b` after which the mark no longer depends on what came before. */
  ghost predicate Cuts(step: Step, b: nat) {
    step == Abort(b) || step == CommitEnd(b) || step == InvalidateAll(b) || (step.AbortSub? && step.b == b)
  }

  /** A rollback to a savepoint with upserts before it, or a cache wipe with upserts standing. */
  ghost predicate DropsStanding(states: seq<Sys>, steps: seq<Step>, b: nat, m: nat)
    requires m < |steps| < |states|
  {
    || (steps[m].AbortSub? && steps[m].b == b && steps[m].mark > 0)
    || (steps[m] == InvalidateAll(b) && b < |states[m].backends| && states[m].backends[b].made != [])
  }

  /** The transaction's last such step, if any, found upserts to drop. */
  ghost predicate LastCutDrops(states: seq<Sys>, steps: seq<Step>, b: nat, n: nat)
    requires n <= |steps| < |states|
  {
    exists m :: 0 <= m < n && DropsStanding(states, steps, b, m) && NoCut(steps, b, m + 1, n)
  }

  ghost predicate NoCut(steps: seq<Step>, b: nat, lo: nat, hi: nat)
    requires hi <= |steps|
  {
    forall l :: lo <= l < hi ==> !Cuts(steps[l], b)
  }

  lemma {:induction false} MarkIsDrop(states: seq<Sys>, steps: seq<Step>, b: nat, n: nat)
    requires n <= |steps| < |states|
    ensures LastMark(states, steps, b, n) > 0 <==> LastCutDrops(states, steps, b, n)
    decreases n
  {
    if n > 0 {
      MarkIsDrop(states, steps, b, n - 1);
      hide LastMark, DropsStanding;
      if Cuts(steps[n - 1], b) {
        CutMark(states, steps, b, n);
        assert NoCut(steps, b, n, n);
      } else {
        UncutMark(states, steps, b, n);
        if LastCutDrops(states, steps, b, n - 1) {
          var m :| 0 <= m < n - 1 && DropsStanding(states, steps, b, m) && NoCut(steps, b, m + 1, n - 1);
          assert NoCut(steps, b, m + 1, n);
        }
        if LastCutDrops(states, steps, b, n) {
          var m :| 0 <= m < n && DropsStanding(states, steps, b, m) && NoCut(steps, b, m + 1, n);
          assert NoCut(steps, b, m + 1, n - 1);
        }
      }
    }
  }

  lemma CutMark(states: seq<Sys>, steps: seq<Step>, b: nat, n: nat)
    requires 0 < n <= |steps| < |states| && Cuts(steps[n - 1], b)
    ensures LastMark(states, steps, b, n) > 0 <==> DropsStanding(states, steps, b, n - 1)
  {
  }

  lemma UncutMark(states: seq<Sys>, steps: seq<Step>, b: nat, n: nat)
    requires 0 < n <= |steps| < |states| && !Cuts(steps[n - 1], b)
    ensures LastMark(states, steps, b, n) == LastMark(states, steps, b, n - 1)
            && !DropsStanding(states, steps, b, n - 1)
  {
  }

  lemma KeptIsMade(x: Backend)
    requires LogsOk(x)
    ensures x.kept == x.made <==> Missing(x) == 0
  {
    hide NoDirty;
  }

  /** In every run, the upserts waiting are all those standing exactly when the transaction's last savepoint
      rollback or cache wipe, if it had any, found none to drop. */
  lemma AllWaitIff(states: seq<Sys>, steps: seq<Step>, b: nat, n: nat)
    requires IsRun(states, steps) && b < |states[0].backends| && n <= |steps|
    ensures b < |states[n].backends|
    ensures states[n].backends[b].kept == states[n].backends[b].made <==> !LastCutDrops(states, steps, b, n)
  {
    MissingIsLastMark(states, steps, b, n);
    MarkIsDrop(states, steps, b, n);
    RunKeepsInvariant(states, steps, n);
    hide IsRun, LastCutDrops, EntriesOk, PhaseOk, DiskOk;
    assert BackendOk(states[n].disk, states[n].nextNode, states[n].backends[b]);
    KeptIsMade(states[n].backends[b]);
  }

  /** A flush of such a transaction puts every standing upsert of its index on disk. */
  lemma FlushWritesAllStanding(states: seq<Sys>, steps: seq<Step>, b: nat, n: nat)
    requires IsRun(states, steps) && b < |states[0].backends| && n < |steps|
    requires steps[n].FlushOne? && steps[n].b == b && !LastCutDrops(states, steps, b, n)
    ensures b < |states[n].backends|
    ensures var rel := steps[n].key.relOid;
            rel in states[n].disk ==>
              && rel in states[n + 1].disk
              && Live(states[n + 1].disk[rel])
                   == Live(states[n].disk[rel]) + ChangesMap(states[n].backends[b].made, rel)
  {
    AllWaitIff(states, steps, b, n);
    RunKeepsInvariant(states, steps, n);
    hide Next, Inv, Init, FlushOneNext, LastCutDrops;
    assert Next(states[n], states[n + 1], steps[n]);
    NextIsFlush(states[n], states[n + 1], steps[n]);
    var k := steps[n].key;
    if k.relOid in states[n].disk { FlushExact(states[n], states[n + 1], b, k, steps[n].maxPct, k.relOid); }
  }
}
