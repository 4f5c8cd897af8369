/** A run of one backend in which a committed row is missing from the index: insert, savepoint rollback of
    nothing, commit. */
module ProtocolExample {
  import opened Options
  import opened IdMap
  import opened Relfile
  import opened Cache
  import opened Xact
  import opened Insert
  import opened Protocol
  import opened ProtocolTheorems

  const STORED_7: Code := Code([], 7)
  const EMPTY_INDEX: Image := Image(0, 1, Shape(4, 8), 0, 0, [], [])
  const KEY: CacheKey := AmKey(0, EMPTY_INDEX)
  const ROW_7: Change := Change(0, 1, STORED_7)

  /** The cache after the empty index was loaded, and after the row went in. */
  const LOADED: State := AfterLoad(State(map[], 0), EMPTY_INDEX, true, KEY)
  const UPSERTED: State :=
    State(map[KEY := Entry(Mutable([Row(1, STORED_7)]), EstimatedBytes(EMPTY_INDEX, true), 0, 0, 1, true,
                                                  Some(PersistState(1, 1, [1], [1])))], 1)

  const AT_START: Backend := Backend(State(map[], 0), false, false, [], [], Idle, Running)
  const AFTER_INSERT: Backend := Backend(UPSERTED, true, false, [ROW_7], [ROW_7], Idle, Running)
  const AFTER_ROLLBACK: Backend := Backend(State(map[], 1), true, false, [ROW_7], [], Idle, Running)
  const AT_COMMIT: Backend := Backend(State(map[], 1), false, false, [ROW_7], [], Idle, Flushing({}))
  const AFTER_COMMIT: Backend := Backend(State(map[], 1), false, false, [], [], Idle, Running)

  function World(x: Backend): Sys { Sys(map[0 := EMPTY_INDEX], [x], 1) }

  lemma Starts()
    ensures Init(World(AT_START))
  {
  }

  lemma InsertUpsertsRow()
    ensures KEY in LOADED.entries && Upsertable(LOADED, KEY) && AfterUpsert(LOADED, KEY, 1, STORED_7) == UPSERTED
  {
    var e := LOADED.entries[KEY];
    assert LoadedRows(EMPTY_INDEX, true) == [] && Ids([]) == [];
    assert e.persist == Some(PersistState(0, 0, [], []));
    assert Upsert([], 1, STORED_7) == [Row(1, STORED_7)];
    assert RecordUpsert(e.persist.value, 1, false) == PersistState(1, 1, [1], [1]);
    assert AfterUpsert(LOADED, KEY, 1, STORED_7).entries == UPSERTED.entries;
  }

  lemma Replaced(x: Backend, y: Backend)
    ensures WithBackend(World(x), 0, y) == World(y)
  {
    assert [x][0 := y] == [y];
  }

  lemma NothingToDrop()
    ensures Drop(State(map[], 0), KEY) == State(map[], 0)
  {
    var none: map<CacheKey, Entry> := map[];
    assert none - {KEY} == none;
  }

  lemma Inserts()
    ensures InsertNext(World(AT_START), World(AFTER_INSERT), 0, 0, 1, STORED_7, true, 1, LOADED, Inserted)
  {
    InsertUpsertsRow();
    NothingToDrop();
    Replaced(AT_START, AFTER_INSERT);
    assert AfterMutationLookup(State(map[], 0), KEY, 0) == State(map[], 0);
    assert [] + [ROW_7] == [ROW_7];
  }

  lemma RollsBack()
    ensures AbortSubNext(World(AFTER_INSERT), World(AFTER_ROLLBACK), 0, 1)
  {
    Replaced(AFTER_INSERT, AFTER_ROLLBACK);
    assert AfterInvalidateDirty(UPSERTED).entries == map[];
    assert [ROW_7][..1] == [ROW_7];
  }

  lemma Begins()
    ensures CommitBeginNext(World(AFTER_ROLLBACK), World(AT_COMMIT), 0)
  {
    Replaced(AFTER_ROLLBACK, AT_COMMIT);
    assert FlushableKeys(map[]) == {};
  }

  lemma Ends()
    ensures CommitEndNext(World(AT_COMMIT), World(AFTER_COMMIT), 0)
  {
    Replaced(AT_COMMIT, AFTER_COMMIT);
  }

  const INSERTING: Step := InsertRow(0, 0, 1, STORED_7, true, 1, LOADED, Inserted)

  lemma InsertStepTaken()
    ensures Next(World(AT_START), World(AFTER_INSERT), INSERTING)
  {
    hide InsertNext, World;
    Inserts();
  }

  lemma OtherStepsTaken()
    ensures Next(World(AFTER_INSERT), World(AFTER_ROLLBACK), AbortSub(0, 1))
    ensures Next(World(AFTER_ROLLBACK), World(AT_COMMIT), CommitBegin(0))
    ensures Next(World(AT_COMMIT), World(AFTER_COMMIT), CommitEnd(0))
  {
    hide AbortSubNext, CommitBeginNext, CommitEndNext, World;
    RollsBack();
    Begins();
    Ends();
  }

  lemma PathOfFour(a: Sys, b: Sys, c: Sys, d: Sys, e: Sys, p: Step, q: Step, r: Step, s: Step)
    requires Init(a) && Next(a, b, p) && Next(b, c, q) && Next(c, d, r) && Next(d, e, s)
    ensures IsRun([a, b, c, d, e], [p, q, r, s])
  {
    hide Next, Init;
  }

  /** The transaction keeps the row and commits, and the index does not have it. */
  lemma CommittedRowLost()
    ensures IsRun([World(AT_START), World(AFTER_INSERT), World(AFTER_ROLLBACK), World(AT_COMMIT), World(AFTER_COMMIT)],
                  [INSERTING, AbortSub(0, 1), CommitBegin(0), CommitEnd(0)])
    ensures AT_COMMIT.made == [ROW_7] && Live(EMPTY_INDEX) == map[]
  {
    assert Live(EMPTY_INDEX) == map[];
    hide *;
    Starts();
    InsertStepTaken();
    OtherStepsTaken();
    PathOfFour(World(AT_START), World(AFTER_INSERT), World(AFTER_ROLLBACK), World(AT_COMMIT), World(AFTER_COMMIT),
               INSERTING, AbortSub(0, 1), CommitBegin(0), CommitEnd(0));
  }
}
