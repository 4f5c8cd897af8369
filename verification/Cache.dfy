/** The per-backend index cache: one entry per key, stamped with the relfilenode and version it
    was loaded at, evicted least recently used first, never while it holds unflushed upserts. */
module Cache {
  import opened Collections
  import opened Options
  import opened IdMap
  import opened Relfile

  datatype CacheKey = CacheKey(relOid: nat, attnum: int, bitWidth: nat, dim: nat)

  /** What a backend remembers beside a mutable index so that its commit can flush it. */
  datatype PersistState = PersistState(nVectors: int, version: nat, liveIds: seq<Id>, touchedIds: seq<Id>)

  datatype Stored = Mutable(rows: seq<Row>) | ReadOnly(rows: seq<Row>) | Ooc(rows: seq<Row>) | Graph | Bq

  datatype Entry = Entry(index: Stored, bytes: nat, relfilenode: nat, nRows: int, seqNo: nat, dirty: bool,
                         persist: Option<PersistState>)

  datatype State = State(entries: map<CacheKey, Entry>, clock: nat)

  datatype DirtyEntry = DirtyEntry(key: CacheKey, rows: seq<Row>, persist: PersistState)

  // ---------------------------------------------------------------- what each call does to the cache

  function Touch(st: State, key: CacheKey): State
    requires key in st.entries
  {
    State(st.entries[key := st.entries[key].(seqNo := st.clock + 1)], st.clock + 1)
  }

  function Drop(st: State, key: CacheKey): State {
    State(st.entries - {key}, st.clock)
  }

  predicate Fresh(e: Entry, node: nat, nRows: int) {
    e.relfilenode == node && e.nRows == nRows
  }

  predicate ScanHit(st: State, key: CacheKey, node: nat, nRows: int) {
    key in st.entries && (Fresh(st.entries[key], node, nRows) || st.entries[key].dirty)
  }

  /** A scan hits on a matching label, or on this transaction's own unflushed view; anything else is dropped. */
  function AfterScanLookup(st: State, key: CacheKey, node: nat, nRows: int): State {
    if ScanHit(st, key, node, nRows) then Touch(st, key) else Drop(st, key)
  }

  /** An insert reuses any mutable entry of the same relfilenode, whatever version it is labelled with. */
  predicate MutationHit(st: State, key: CacheKey, node: nat) {
    && key in st.entries && st.entries[key].index.Mutable?
    && (if st.entries[key].relfilenode == node then st.entries[key].persist.Some? else st.entries[key].dirty)
  }

  function AfterMutationLookup(st: State, key: CacheKey, node: nat): State {
    if MutationHit(st, key, node) then Touch(st, key) else Drop(st, key)
  }

  function AfterInstall(st: State, key: CacheKey, index: Stored, bytes: nat, node: nat, nRows: int,
      persist: Option<PersistState>): State
  {
    State(st.entries[key := Entry(index, bytes, node, nRows, st.clock + 1, false, persist)], st.clock + 1)
  }

  /** The counters `aminsert` advances for one upserted id. */
  function RecordUpsert(p: PersistState, id: Id, alreadyPresent: bool): PersistState {
    PersistState(if alreadyPresent then p.nVectors else p.nVectors + 1, p.version + 1,
                 if alreadyPresent then p.liveIds else p.liveIds + [id], p.touchedIds + [id])
  }

  /** A mutable entry after one upsert. */
  function Upserted(e: Entry, id: Id, code: Code): Entry
    requires e.index.Mutable? && e.persist.Some?
  {
    var p := RecordUpsert(e.persist.value, id, Has(e.index.rows, id));
    e.(index := Mutable(Upsert(e.index.rows, id, code)), persist := Some(p), dirty := true)
  }

  /** The upsert through the index's write guard followed by the dirty mark. */
  function AfterUpsert(st: State, key: CacheKey, id: Id, code: Code): State
    requires key in st.entries && st.entries[key].index.Mutable? && st.entries[key].persist.Some?
  {
    State(st.entries[key := Upserted(st.entries[key], id, code)], st.clock)
  }

  /** What is left of an entry once its flush returned. */
  function Settled(e: Entry, outcome: Option<FlushOutcome>): (r: Option<Entry>)
  {
    if outcome.Some? && outcome.value.snapshotIsCurrent then
      var o := outcome.value;
      Some(e.(dirty := false, nRows := if o.carriesTombstones then -1 else o.stampedVersion,
              persist := if e.persist.Some?
                         then Some(e.persist.value.(version := o.stampedVersion, touchedIds := []))
                         else None))
    else None
  }

  function AfterClearDirty(st: State, key: CacheKey, outcome: Option<FlushOutcome>): (r: State)
    ensures r.clock == st.clock
    ensures r.entries - {key} == st.entries - {key}
  {
    if key in st.entries && Settled(st.entries[key], outcome).Some?
    then State(st.entries[key := Settled(st.entries[key], outcome).value], st.clock)
    else Drop(st, key)
  }

  function AfterInvalidateDirty(st: State): State {
    State(map k | k in st.entries && !st.entries[k].dirty :: st.entries[k], st.clock)
  }

  predicate Flushable(e: Entry) {
    e.dirty && e.persist.Some? && e.index.Mutable?
  }

  // ---------------------------------------------------------------- the size cap

  /** Only clean entries went; the rest are as they were. */
  ghost predicate Evicted(before: map<CacheKey, Entry>, after: map<CacheKey, Entry>) {
    && (forall k :: k in after ==> k in before && after[k] == before[k])
    && (forall k :: k in before && before[k].dirty ==> k in after)
  }

  ghost function TotalBytes(m: map<CacheKey, Entry>): nat {
    if m == map[] then 0 else
      var k :| k in m;
      m[k].bytes + TotalBytes(m - {k})
  }

  lemma {:induction false} TotalWithout(m: map<CacheKey, Entry>, k: CacheKey)
    requires k in m
    ensures TotalBytes(m) == m[k].bytes + TotalBytes(m - {k})
    decreases m.Keys
  {
    var j :| j in m && TotalBytes(m) == m[j].bytes + TotalBytes(m - {j});
    if j != k {
      TotalWithout(m - {j}, k);
      TotalWithout(m - {k}, j);
      assert m - {j} - {k} == m - {k} - {j};
    }
  }

  /** Sequence numbers come from one counter, so they are never shared. */
  ghost predicate Stamped(st: State) {
    && (forall k :: k in st.entries ==> st.entries[k].seqNo <= st.clock)
    && (forall j, k :: j in st.entries && k in st.entries && j != k ==> st.entries[j].seqNo != st.entries[k].seqNo)
  }

  /** The outcome of enforcing a positive cap: clean entries left oldest first, no more than had to,
      until the cap holds, one entry is left, or only dirty ones are. */
  ghost predicate CapEnforced(before: map<CacheKey, Entry>, after: map<CacheKey, Entry>, cap: nat) {
    && Evicted(before, after)
    && (TotalBytes(after) <= cap || |after| <= 1 || forall k :: k in after ==> after[k].dirty)
    && OlderThanSurvivors(before, after)
    && (forall k :: NewestEvicted(before, after, k) ==> TotalBytes(after) + before[k].bytes > cap && after != map[])
  }

  ghost predicate OlderThanSurvivors(before: map<CacheKey, Entry>, after: map<CacheKey, Entry>) {
    forall k, j :: k in before && k !in after && j in after && !after[j].dirty ==> before[k].seqNo < after[j].seqNo
  }

  ghost predicate NewestEvicted(before: map<CacheKey, Entry>, after: map<CacheKey, Entry>, k: CacheKey) {
    k in before && k !in after && forall j :: j in before && j !in after ==> before[j].seqNo <= before[k].seqNo
  }

  /** Part-way through an enforcement. */
  ghost predicate CapProgress(before: map<CacheKey, Entry>, now: map<CacheKey, Entry>, cap: nat) {
    && Evicted(before, now)
    && OlderThanSurvivors(before, now)
    && forall k :: NewestEvicted(before, now, k) ==> TotalBytes(now) + before[k].bytes > cap && now != map[]
  }

  ghost predicate IsOldestClean(m: map<CacheKey, Entry>, k: CacheKey) {
    k in m && !m[k].dirty && forall j :: j in m && !m[j].dirty ==> m[k].seqNo <= m[j].seqNo
  }

  ghost predicate SeqsDistinct(m: map<CacheKey, Entry>) {
    forall i, j :: i in m && j in m && i != j ==> m[i].seqNo != m[j].seqNo
  }

  lemma EvictedStamped(before: State, after: State)
    requires Stamped(before) && Evicted(before.entries, after.entries) && before.clock <= after.clock
    ensures Stamped(after)
  {
  }

  lemma EvictOldestOrder(before: map<CacheKey, Entry>, now: map<CacheKey, Entry>, k: CacheKey)
    requires SeqsDistinct(before) && Evicted(before, now) && OlderThanSurvivors(before, now) && IsOldestClean(now, k)
    ensures Evicted(before, now - {k}) && OlderThanSurvivors(before, now - {k})
    ensures forall j :: NewestEvicted(before, now - {k}, j) ==> j == k
  {
    var next := now - {k};
    forall j | NewestEvicted(before, next, j) ensures j == k {
      assert before[k].seqNo <= before[j].seqNo;
    }
  }

  lemma EvictOldest(before: map<CacheKey, Entry>, now: map<CacheKey, Entry>, k: CacheKey, cap: nat)
    requires SeqsDistinct(before) && CapProgress(before, now, cap) && IsOldestClean(now, k)
    requires TotalBytes(now) > cap && |now| > 1
    ensures CapProgress(before, now - {k}, cap)
    ensures TotalBytes(now - {k}) == TotalBytes(now) - now[k].bytes && |now - {k}| == |now| - 1
  {
    TotalWithout(now, k);
    assert (now - {k}).Keys == now.Keys - {k};
    EvictOldestOrder(before, now, k);
  }

  lemma {:induction false} TotalMonotone(small: map<CacheKey, Entry>, big: map<CacheKey, Entry>)
    requires forall k :: k in small ==> k in big && big[k] == small[k]
    ensures TotalBytes(small) <= TotalBytes(big)
    decreases small.Keys
  {
    if small != map[] {
      var k :| k in small;
      TotalMonotone(small - {k}, big - {k});
      TotalWithout(small, k);
      TotalWithout(big, k);
    }
  }

  lemma SomeNewestEvicted(before: map<CacheKey, Entry>, after: map<CacheKey, Entry>, first: CacheKey)
    returns (k: CacheKey)
    requires first in before && first !in after
    ensures NewestEvicted(before, after, k)
  {
    k := first;
    var left := before.Keys;
    while left != {}
      invariant k in before && k !in after
      invariant forall j :: j in before && j !in after && j !in left ==> before[j].seqNo <= before[k].seqNo
      decreases left
    {
      var j :| j in left;
      left := left - {j};
      if j !in after && before[j].seqNo > before[k].seqNo { k := j; }
    }
  }

  /** Evicting oldest first means of two outcomes one keeps everything the other keeps. */
  lemma OneOutcomeContainsOther(before: map<CacheKey, Entry>, a: map<CacheKey, Entry>, b: map<CacheKey, Entry>,
      k: CacheKey)
    requires SeqsDistinct(before) && Evicted(before, a) && Evicted(before, b)
    requires OlderThanSurvivors(before, a) && OlderThanSurvivors(before, b)
    requires k in a && k !in b
    ensures b.Keys <= a.Keys
    ensures forall last :: NewestEvicted(before, b, last) ==> last in a && !a[last].dirty
  {
    assert !a[k].dirty;
    assert forall j :: j in before && j !in a ==> before[j].seqNo < a[k].seqNo;
    assert forall j :: j in b && !b[j].dirty ==> before[k].seqNo < b[j].seqNo;
    forall j | j in b ensures j in a {
    }
    forall last | NewestEvicted(before, b, last) ensures last in a && !a[last].dirty {
      assert before[k].seqNo <= before[last].seqNo;
    }
  }

  lemma OneMoreEntry(a: map<CacheKey, Entry>, b: map<CacheKey, Entry>, last: CacheKey)
    requires b != map[] && last in a && last !in b && forall k :: k in b ==> k in a && a[k] == b[k]
    ensures TotalBytes(a) >= TotalBytes(b) + a[last].bytes && |a| >= 2
  {
    TotalMonotone(b, a - {last});
    TotalWithout(a, last);
    var j :| j in b;
    SubsetSize({j, last}, a.Keys);
    assert |a| == |a.Keys|;
  }

  lemma CapKeepsNoMore(before: map<CacheKey, Entry>, a: map<CacheKey, Entry>, b: map<CacheKey, Entry>, cap: nat)
    requires SeqsDistinct(before) && CapEnforced(before, a, cap) && CapEnforced(before, b, cap)
    ensures a.Keys <= b.Keys
  {
    if k :| k in a && k !in b {
      var last := SomeNewestEvicted(before, b, k);
      OneOutcomeContainsOther(before, a, b, k);
      OneMoreEntry(a, b, last);
      assert false;
    }
  }

  /** The cap determines the outcome: nothing about it depends on the order the hash map is walked in. */
  lemma CapEnforcedUnique(before: map<CacheKey, Entry>, a: map<CacheKey, Entry>, b: map<CacheKey, Entry>, cap: nat)
    requires SeqsDistinct(before) && CapEnforced(before, a, cap) && CapEnforced(before, b, cap)
    ensures a == b
  {
    CapKeepsNoMore(before, a, b, cap);
    CapKeepsNoMore(before, b, a, cap);
    assert a.Keys == b.Keys;
  }

  // ---------------------------------------------------------------- what one install leaves

  /** The outcome of enforcing a cap in megabytes; with the cap at 0 caching is off and only unflushed entries
      stay. */
  ghost predicate Capped(before: map<CacheKey, Entry>, after: map<CacheKey, Entry>, capMb: int) {
    && Evicted(before, after)
    && (if capMb <= 0 then forall k :: k in after ==> after[k].dirty
        else CapEnforced(before, after, capMb * 1024 * 1024))
  }

  function DirtyOnly(m: map<CacheKey, Entry>): map<CacheKey, Entry> {
    map k | k in m && m[k].dirty :: m[k]
  }

  /** The unflushed entries alone leave no room for this many bytes more. */
  ghost predicate NoRoom(m: map<CacheKey, Entry>, bytes: nat, capMb: int) {
    capMb <= 0 || (DirtyOnly(m) != map[] && TotalBytes(DirtyOnly(m)) + bytes > capMb * 1024 * 1024)
  }

  lemma OlderCleanGone(before: map<CacheKey, Entry>, after: map<CacheKey, Entry>, key: CacheKey, j: CacheKey)
    requires Evicted(before, after) && OlderThanSurvivors(before, after) && key in before && key !in after
    requires j in after && before[j].seqNo < before[key].seqNo
    ensures after[j].dirty
  {
  }

  lemma OnlyDirtyLeft(before: map<CacheKey, Entry>, after: map<CacheKey, Entry>, key: CacheKey, cap: nat)
    requires CapEnforced(before, after, cap) && key in before && !before[key].dirty && key !in after
    requires forall k :: k in before && k != key ==> before[k].seqNo < before[key].seqNo
    ensures after == DirtyOnly(before) != map[] && TotalBytes(DirtyOnly(before)) + before[key].bytes > cap
  {
    assert NewestEvicted(before, after, key);
    forall j | j in after ensures after[j].dirty { OlderCleanGone(before, after, key, j); }
    assert after == DirtyOnly(before);
  }

  /** The entry with the newest stamp goes exactly when caching is off or the unflushed entries leave no room. */
  lemma NewestGoesIff(before: map<CacheKey, Entry>, after: map<CacheKey, Entry>, key: CacheKey, capMb: int)
    requires Capped(before, after, capMb) && key in before && !before[key].dirty
    requires forall k :: k in before && k != key ==> before[k].seqNo < before[key].seqNo
    ensures key !in after <==> NoRoom(before, before[key].bytes, capMb)
  {
    if capMb > 0 {
      var cap := capMb * 1024 * 1024;
      if key !in after {
        OnlyDirtyLeft(before, after, key, cap);
      } else if DirtyOnly(before) != map[] {
        var kept := DirtyOnly(before);
        var j :| j in kept;
        TotalMonotone(kept, after - {key});
        TotalWithout(after, key);
        SubsetSize({j, key}, after.Keys);
        assert |after| == |after.Keys|;
      }
    }
  }

  /** A new entry gets the newest stamp. */
  lemma InstallStamped(st: State, key: CacheKey, index: Stored, bytes: nat, node: nat, nRows: int,
      persist: Option<PersistState>)
    requires Stamped(st)
    ensures var r := AfterInstall(st, key, index, bytes, node, nRows, persist);
            Stamped(r) && forall j :: j in r.entries && j != key ==> r.entries[j].seqNo < r.entries[key].seqNo
  {
  }

  /** Using an entry gives it the newest stamp. */
  lemma TouchStamped(st: State, key: CacheKey)
    requires Stamped(st) && key in st.entries
    ensures var r := Touch(st, key);
            Stamped(r) && forall j :: j in r.entries && j != key ==> r.entries[j].seqNo < r.entries[key].seqNo
  {
  }

  lemma InstalledGoesIff(st: State, key: CacheKey, index: Stored, bytes: nat, node: nat, nRows: int,
      persist: Option<PersistState>, after: map<CacheKey, Entry>, capMb: int)
    requires Stamped(st) && Capped(AfterInstall(st, key, index, bytes, node, nRows, persist).entries, after, capMb)
    ensures key !in after <==> NoRoom(st.entries - {key}, bytes, capMb)
  {
    var installed := AfterInstall(st, key, index, bytes, node, nRows, persist).entries;
    hide Capped;
    assert DirtyOnly(installed) == DirtyOnly(st.entries - {key});
    hide DirtyOnly;
    NewestGoesIff(installed, after, key, capMb);
  }

  class BackendCache {
    var entries: map<CacheKey, Entry>
    var clock: nat

    ghost function View(): State
      reads this
    {
      State(entries, clock)
    }

    ghost predicate Valid()
      reads this
    {
      Stamped(View())
    }

    constructor ()
      ensures Valid() && View() == State(map[], 0)
    {
      entries, clock := map[], 0;
    }

    method NextSeq() returns (s: nat)
      modifies this`clock
      ensures s == clock == old(clock) + 1
    {
      clock := clock + 1;
      s := clock;
    }

    method ScanLookup(key: CacheKey, node: nat, nRows: int) returns (hit: Option<Stored>)
      requires Valid()
      modifies this
      ensures Valid() && View() == AfterScanLookup(old(View()), key, node, nRows)
      ensures hit.Some? <==> ScanHit(old(View()), key, node, nRows)
      ensures hit.Some? <==>
                && key in old(entries)
                && var e := old(entries)[key]; (e.relfilenode == node && e.nRows == nRows) || e.dirty
      ensures hit.Some? ==> hit.value == old(entries)[key].index
      ensures hit.None? ==> entries == old(entries) - {key}
    {
      if key !in entries {
        assert entries - {key} == entries;
        return None;
      }
      var e := entries[key];
      if e.relfilenode != node || e.nRows != nRows {
        if e.dirty {
          var s := NextSeq();
          entries := entries[key := e.(seqNo := s)];
          return Some(e.index);
        }
        entries := entries - {key};
        return None;
      }
      var s := NextSeq();
      entries := entries[key := e.(seqNo := s)];
      hit := Some(e.index);
    }

    method AmLookupForMutation(key: CacheKey, node: nat) returns (hit: Option<seq<Row>>)
      requires Valid()
      modifies this
      ensures Valid() && View() == AfterMutationLookup(old(View()), key, node)
      ensures hit.Some? <==> MutationHit(old(View()), key, node)
      ensures hit.Some? <==>
                && key in old(entries) && old(entries)[key].index.Mutable?
                && var e := old(entries)[key]; if e.relfilenode == node then e.persist.Some? else e.dirty
      ensures hit.Some? ==> Mutable(hit.value) == old(entries)[key].index
      ensures hit.None? ==> entries == old(entries) - {key}
    {
      if key !in entries {
        assert entries - {key} == entries;
        return None;
      }
      var e := entries[key];
      if !e.index.Mutable? {
        entries := entries - {key};
        return None;
      }
      if e.relfilenode != node {
        if e.dirty {
          var s := NextSeq();
          entries := entries[key := e.(seqNo := s)];
          return Some(e.index.rows);
        }
        entries := entries - {key};
        return None;
      }
      if e.persist.None? {
        entries := entries - {key};
        return None;
      }
      var s := NextSeq();
      entries := entries[key := e.(seqNo := s)];
      hit := Some(e.index.rows);
    }

    /** The five install functions: replace the entry, then enforce the cap. */
    method Install(key: CacheKey, index: Stored, bytes: nat, node: nat, nRows: int, persist: Option<PersistState>,
        capMb: int)
      requires Valid()
      modifies this
      ensures Valid()
      ensures clock == old(clock) + 1
      ensures Capped(AfterInstall(old(View()), key, index, bytes, node, nRows, persist).entries, entries, capMb)
      ensures key !in entries <==> NoRoom(old(entries) - {key}, bytes, capMb)
    {
      InstallStamped(View(), key, index, bytes, node, nRows, persist);
      hide Capped, NoRoom, Stamped;
      var s := NextSeq();
      entries := entries[key := Entry(index, bytes, node, nRows, s, false, persist)];
      assert View() == AfterInstall(old(View()), key, index, bytes, node, nRows, persist);
      EnforceCap(capMb);
      InstalledGoesIff(old(View()), key, index, bytes, node, nRows, persist, entries, capMb);
    }

    /** `am_mark_dirty` after the write guard applied the upsert; false when the entry is gone. */
    method UpsertAndMarkDirty(key: CacheKey, id: Id, code: Code) returns (updated: bool)
      requires Valid()
      requires key in entries ==> entries[key].index.Mutable?
      modifies this`entries
      ensures Valid()
      ensures updated <==> (key in old(entries) && old(entries)[key].persist.Some?)
      ensures View() == if updated then AfterUpsert(old(View()), key, id, code) else old(View())
    {
      if key !in entries || entries[key].persist.None? {
        return false;
      }
      var e := entries[key];
      var present := Has(e.index.rows, id);
      var rows := e.index.rows;
      match Add(rows, id, code) {
        case Some(out) => rows := out;
        case None => rows := Remove(rows, id) + [Row(id, code)];
      }
      var p := RecordUpsert(e.persist.value, id, present);
      entries := entries[key := e.(index := Mutable(rows), persist := Some(p), dirty := true)];
      updated := true;
    }

    /** Every dirty entry, in whatever order the map yields them; nothing is marked clean yet. */
    method DrainDirty() returns (out: seq<DirtyEntry>)
      ensures forall i :: 0 <= i < |out| ==>
                out[i].key in entries && Flushable(entries[out[i].key])
                && out[i].rows == entries[out[i].key].index.rows && out[i].persist == entries[out[i].key].persist.value
      ensures forall i, j :: 0 <= i < j < |out| ==> out[i].key != out[j].key
      ensures forall k :: k in entries && Flushable(entries[k]) ==> exists i :: 0 <= i < |out| && out[i].key == k
    {
      out := [];
      var left := entries.Keys;
      while left != {}
        invariant left <= entries.Keys
        invariant forall i :: 0 <= i < |out| ==>
                    out[i].key in entries && out[i].key !in left && Flushable(entries[out[i].key])
                    && out[i].rows == entries[out[i].key].index.rows
                       && out[i].persist == entries[out[i].key].persist.value
        invariant forall i, j :: 0 <= i < j < |out| ==> out[i].key != out[j].key
        invariant forall k :: k in entries && k !in left && Flushable(entries[k]) ==>
                  exists i :: 0 <= i < |out| && out[i].key == k
        decreases left
      {
        var k :| k in left;
        left := left - {k};
        ghost var had := out;
        if Flushable(entries[k]) {
          out := out + [DirtyEntry(k, entries[k].index.rows, entries[k].persist.value)];
          assert out[|had|].key == k;
        }
        forall j | j in entries && j !in left && Flushable(entries[j])
          ensures exists i :: 0 <= i < |out| && out[i].key == j
        {
          if j != k {
            var i :| 0 <= i < |had| && had[i].key == j;
            assert out[i].key == j;
          }
        }
      }
    }

    method ClearDirty(key: CacheKey, outcome: Option<FlushOutcome>)
      requires Valid()
      modifies this`entries
      ensures Valid() && View() == AfterClearDirty(old(View()), key, outcome)
      ensures entries - {key} == old(entries) - {key}
      ensures key in entries <==> key in old(entries) && outcome.Some? && outcome.value.snapshotIsCurrent
      ensures key in entries ==>
                var e, o := entries[key], outcome.value;
                && !e.dirty && e.index == old(entries)[key].index && e.relfilenode == old(entries)[key].relfilenode
                && e.nRows == (if o.carriesTombstones then -1 else o.stampedVersion)
                && (e.persist.Some? ==> e.persist.value.touchedIds == [] && e.persist.value.version == o.stampedVersion)
    {
      if outcome.Some? && outcome.value.snapshotIsCurrent {
        if key in entries {
          var o := outcome.value;
          var e := entries[key].(dirty := false, nRows := if o.carriesTombstones then -1 else o.stampedVersion);
          if e.persist.Some? {
            e := e.(persist := Some(e.persist.value.(version := o.stampedVersion, touchedIds := [])));
          }
          entries := entries[key := e];
        } else {
          assert entries - {key} == entries;
        }
      } else {
        entries := entries - {key};
      }
    }

    method InvalidateDirty()
      requires Valid()
      modifies this`entries
      ensures Valid() && View() == AfterInvalidateDirty(old(View()))
      ensures forall k :: k in entries <==> k in old(entries) && !old(entries)[k].dirty
      ensures forall k :: k in entries ==> entries[k] == old(entries)[k]
    {
      entries := map k | k in entries && !entries[k].dirty :: entries[k];
    }

    method InvalidateAll()
      modifies this`entries
      ensures Valid() && View() == State(map[], old(clock))
    {
      entries := map[];
    }

    /** The oldest clean entry, if there is a clean one. */
    method LeastRecentlyUsed() returns (lru: Option<CacheKey>)
      ensures lru.None? ==> forall k :: k in entries ==> entries[k].dirty
      ensures lru.Some? ==> IsOldestClean(entries, lru.value)
    {
      lru := None;
      var left := entries.Keys;
      while left != {}
        invariant left <= entries.Keys
        invariant lru.None? ==> forall k :: k in entries && k !in left ==> entries[k].dirty
        invariant lru.Some? ==>
                    lru.value in entries && !entries[lru.value].dirty
                    && forall k :: k in entries && k !in left && !entries[k].dirty ==>
                         entries[lru.value].seqNo <= entries[k].seqNo
        decreases left
      {
        var k :| k in left;
        left := left - {k};
        if !entries[k].dirty && (lru.None? || entries[k].seqNo < entries[lru.value].seqNo) {
          lru := Some(k);
        }
      }
    }

    method SumBytes() returns (total: nat)
      ensures total == TotalBytes(entries)
    {
      total := 0;
      var left := entries;
      while left != map[]
        invariant total + TotalBytes(left) == TotalBytes(entries)
        decreases left.Keys
      {
        var k :| k in left;
        TotalWithout(left, k);
        total := total + left[k].bytes;
        left := left - {k};
      }
    }

    method EvictToCap(cap: nat)
      requires SeqsDistinct(entries)
      modifies this`entries
      ensures CapEnforced(old(entries), entries, cap)
    {
      var total := SumBytes();
      while total > cap && |entries| > 1
        invariant total == TotalBytes(entries)
        invariant CapProgress(old(entries), entries, cap)
        decreases |entries|
      {
        var lru := LeastRecentlyUsed();
        if lru.None? {
          break;
        }
        EvictOldest(old(entries), entries, lru.value, cap);
        total := total - entries[lru.value].bytes;
        entries := entries - {lru.value};
      }
    }

    /** With the cap at 0 caching is off and only unflushed entries stay. */
    method EnforceCap(capMb: int)
      requires Valid()
      modifies this`entries
      ensures Valid() && Capped(old(entries), entries, capMb)
      ensures capMb <= 0 ==> entries == DirtyOnly(old(entries))
    {
      if capMb <= 0 {
        entries := DirtyOnly(entries);
      } else {
        EvictToCap(capMb * 1024 * 1024);
      }
      EvictedStamped(old(View()), View());
    }
  }
}
