# Dafny model of pg_turbovec

pg_turbovec is a PostgreSQL extension: a vector index access method with quantized in-memory and
on-disk indexes, a build pipeline, sparse and bit vector types, and multivector (ColBERT) search.
This project models its protocols and algorithms and proves what they promise. `dafny verify
dfyconfig.toml` checks all of it.

## Layout

The deferred-flush protocol:

- `IdMap`, `Slots`, `Bitmap`: the id-addressed slot table, fixed-stride buffers, the tombstone bitmap;
  `Options` and `Collections` hold what all modules share.
- `Reconcile`, `Relfile`, `Vacuum`: what rewrites a relfile. A flush splices exactly the touched ids of a
  backend's snapshot onto the image now on disk; VACUUM swap-removes or tombstones.
- `Cache`: the backend-local cache as a class with its lookups, installs, dirty handling and LRU cap.
- `Xact`, `Insert`: the PreCommit sequence and one `aminsert` as methods over that class.
- `Protocol`: any number of backends inserting, scanning, committing and rolling back, with VACUUM,
  REINDEX and DROP INDEX between any two steps. A commit is a validation, one flush per dirty index and an
  end, because the rewrite lock is released after each index. The steps are stated with the same functions
  the methods of `Cache`, `Xact` and `Insert` are proved against.
- `ProtocolProof`, `ProtocolSafety`, `ProtocolTheorems`: the invariant and its consequences over runs;
  `ProtocolCommits`: whole commits and whole transactions inside a run; `ProtocolVersions`: how far version
  counters get.
- `ProtocolHistory`: where cached rows come from over a run, and which moment a scan sees.
- `ProtocolCode`: the backend methods, run in a reachable state, take the protocol's steps, with other
  backends running between two flushes of a commit; `ProtocolExample`: one concrete run.

Out-of-core search: `Topk` (ranking and merging), `Candidates` (masks, cut-out ranges, renumbered slots),
`OocGather` (cell ranges, live runs, page copies), `OocSearch` (chunks, threads, ids), `OocTheorems`
(agreement with the masked whole-index scan, and exactly when the lists are the same), `OocExample` (an index
on which they are not), `BuildSearch` (which of the rows a build placed a probe reads).

The streaming build: `Spill`, `Reservoir`, `Partition`, `IvfBuild`, `FlatBuild`.

The 1-bit index: `Bits`, `OneBit`, `BqSearch`.

Smaller cores: `Kernels` and `OperandCache`, `Text`, `Sparsevec`, `SparseParse`, `SparseOps`, `SparseSum`,
`Bitvec`, `Colbert` and `ColbertSearch`.

## Conventions

- A stored vector is its code bytes and the bit pattern of its scale. Scores, and the elements the 1-bit
  and ColBERT code compares, are integers: only their total order matters. Sparse sums use reals. Where the
  source claims bit-identity (`Kernels`, `IvfBuild`) the arithmetic is a parameter with no law assumed, or
  commutativity of multiplication only.
- The external quantizer and its top-k kernel are parameters. A search theorem asks of the kernel only that
  it returns a best-k list (`OocSearch.Ranks`); results under its slot tie-break are stated separately.
- Worker pools are sequential loops over their chunks, random draws are a function of the row count, and
  configuration values are arguments.
- A hash map read in unspecified order is read in an arbitrary order.

## Where code and documentation disagree

The model follows the code.

- `src/xact.rs:99-139` says a snapshot with id 0 is caught before any write; the check
  (`src/index/scan.rs:78-86`) finds repeated ids only. `Relfile.FlushRefusedIff` gives the exact condition
  under which the later guard fires instead. No reachable state has a row with id 0.
- `src/xact.rs:307-323` calls dropping the whole dirty set on a savepoint rollback correct. It never
  persists a rolled-back row (`ProtocolTheorems.CommitWritesOnlyStanding`), but it also loses rows inserted
  before the savepoint. `ProtocolExample.CommittedRowLost` is such a run. No standing upsert is missed exactly
  when the transaction's last savepoint rollback or cache wipe, if it had one, had no upsert standing below it
  (`ProtocolCommits.AllWaitIff`); the upserts missed are those below its mark (`ProtocolCommits.MissingIsLastMark`).
- `src/cache.rs:946-955` says the out-of-core and whole-index paths return identical results. Scores always
  agree (`OocTheorems.OocMatchesMaskedScan`). How the external kernel orders equal scores is not fixed by the
  source. With a kernel that breaks ties by slot, results are identical for every query and k exactly when the
  probed cells that hold a candidate are visited in cell order (`OocTheorems.PathsAgreeIff`);
  `OocExample.TieOrderMayDiffer` is a failing input. With a kernel of any tie order they are identical for a
  query and k exactly when no tie reaches the first k places (`OocTheorems.AgreeAnyTiesIff`).
- `src/index/build.rs:941-949` says the assignment sweep is bit-identical regardless of chunk size, and
  `src/index/build.rs:442-453` that rotating the sample at the end is byte-identical to rotating each row;
  `src/index/ivf.rs:2065-2085` and `src/index/build.rs:1076-1083` record that the last bits of the rotation
  depend on the row count. Each claim holds exactly when the batch computation is row-wise
  (`IvfBuild.SizesInvisibleIff`, `Reservoir.RotatesLateIff`); `IvfBuild.ChunkSizeShows` and
  `Reservoir.LateRotationShows` run the code with one that is not. The 1-bit build does not rotate, so only its
  assignment has to be row-wise.
- `src/index/insert.rs:466-473` says the mean of an empty 1-bit index is seeded from the first row; the
  code uses zeros, which is the same exactly when that row is zero (`OneBit.MeanSeededIff`).
- `src/colbert.rs:873-876` says a bad token drops the whole document in `fetch_doc_tokens`; the loop only
  forgets the tokens read so far (`Colbert.FetchDocTokens`). The claim holds of given rows exactly unless a
  good token of the document follows its last bad one (`Colbert.BadTokenDropsIff`); `Colbert.BadTokenKept` is
  a failing input. The build's loop (`Colbert.CollectTokenRows`) does drop the document, and drops it for a
  token of the wrong length as well, which `fetch_doc_tokens` skips. On documents whose tokens are all good the
  two agree (`Colbert.GoodDocsAgree`), and no other document is a candidate when both read the same rows.

## Model

| member | source | states |
|---|---|---|
| IdMap.UpsertFacts | src/index/insert.rs:272-297 | an upsert (add; on a refused id remove and add again) is a map update, keeps ids distinct, and the second add is never refused |
| IdMap.RemoveMap | src/index/insert.rs:284-291 | swap-remove deletes exactly one id from the table read as a map |
| IdMap.UpsertIds | src/index/insert.rs:299-321 | the id mirror stays a permutation of the slot table through remove plus re-add |
| Reconcile.OrderTouched | src/index/relfile.rs:1150-1158 | the touched ids in last-touch-first order without repeats |
| Reconcile.ReconcileFlushImage | src/index/relfile.rs:1123-1189 | the splice over flat code, scale and id buffers is the row-level reconcile: fixed-stride slices written in place or appended, nothing else moved |
| Reconcile.ReconcileMap | src/index/relfile.rs:1104-1188 | the reconciled table as a map: the disk map overlaid with the snapshot's values of the touched ids and of no other id |
| Reconcile.SpliceAllUnique | src/index/relfile.rs:1162-1183 | splicing never introduces a repeated id |
| Reconcile.SpliceAllTail | src/index/relfile.rs:1162-1183 | the slots a flush appends carry touched ids only |
| Reconcile.SpliceAllSlot | src/index/relfile.rs:1162-1183 | rows already on disk keep their slots through a flush |
| Relfile.FirstDuplicateId | src/index/scan.rs:78-86 | finds a repeated id exactly when there is one, and the first such slot |
| Relfile.VersionAdvancesIff | src/index/relfile.rs:1191-1209 | the stamped version is strictly larger than the one on disk exactly when the 32-bit counter is not saturated |
| Relfile.StampsLeast | src/index/relfile.rs:1191-1210 | the version stamped is the least one past the disk's (while the counter lasts) and not below the proposed one: no rewrite skips versions |
| Relfile.FlushStamps | src/index/relfile.rs:1262-1554 | an accepted flush stamps the next version or the proposed one and reports it; its two flags say exactly whether tombstones remain and whether the image is the snapshot |
| Relfile.FlushLive | src/index/relfile.rs:1262-1554 | an accepted flush changes the live rows by exactly the touched rows of the snapshot, tombstones included: nothing vacuumed comes back, nothing else is lost |
| Relfile.FlushSound | src/index/relfile.rs:1262-1554 | a flush keeps ids distinct, bitmap padding clear and the cell region inside the table |
| Relfile.FlushRefusedIff | src/index/relfile.rs:2200-2234 | the guards on repeated ids never fire on a sound image and a duplicate-free snapshot; the guard on id 0 fires exactly when a touched row has id 0 |
| Relfile.FlushKeepsCells | src/index/relfile.rs:1308-1324 | while the cell layout is carried over, the slots it describes keep their ids |
| Relfile.LayoutCarriedIff | src/index/relfile.rs:3208-3219 | the cell layout is carried over exactly when the appended tail is at most the allowed percentage of the partitioned region; otherwise it is dropped |
| Relfile.CarryTombstones | src/index/relfile.rs:1501-1517 | the bitmap written is the old one, grown by live slots, with the rewritten slots revived |
| Relfile.BulkInsertCurrentIff | src/index/relfile.rs:1546-1553 | after inserting fresh rows into an unchanged index the snapshot still equals the image exactly when at most one was inserted (appends land in reverse) |
| Relfile.FirstFlushIsCurrent | src/index/relfile.rs:1144-1188 | a flush onto an index with no rows yet, with every row touched, leaves the snapshot itself on disk, so the copy stays cached |
| Vacuum.CollectDeadSlots | src/index/vacuum.rs:132-142 | the ascending list of slots whose ids are gone |
| Vacuum.SwapRemoveInPlace | src/index/vacuum.rs:210-272 | the in-place chain compaction equals swap-removing the slots one by one, highest first |
| Vacuum.TombstoneDead | src/index/vacuum.rs:350-373 | the bitmap after VACUUM marks exactly the old dead slots and the new ones |
| Bitmap.IsSetLayout | src/index/vacuum.rs:350-373 | bit `slot % 8` of byte `slot / 8`, lowest bit first; a slot past the bitmap is live |
| Vacuum.VacuumLive | src/index/vacuum.rs:81-373 | VACUUM removes exactly the dead ids from the live rows, by swap-remove on a flat index and by tombstone on an IVF index |
| Vacuum.VacuumMovesLittle | src/index/vacuum.rs:81-373 | the version is raised by one, and only when a dead row was found; a slot that is kept and was not dead holds the row it held; a flat index keeps its bitmap, a cell index its rows, both their cell layout and shape |
| Vacuum.VacuumHealthy | src/index/vacuum.rs:81-373 | VACUUM keeps the shape every other step relies on |
| Cache.BackendCache.ScanLookup | src/cache.rs:1692-1709 | hits on matching relfilenode and version or on the transaction's own unflushed copy, and then returns it and counts as a use; drops a stale clean entry; no other entry changes |
| Cache.BackendCache.AmLookupForMutation | src/cache.rs:1725-1763 | hits a mutable copy of the same relfilenode whatever its version; a stale or read-only entry is dropped; no other entry changes |
| Cache.BackendCache.Install | src/cache.rs:1940-1964 | the new entry gets the next use stamp, then the cap given is enforced; the entry is gone again exactly when caching is off, or the dirty entries that stay leave no room for it |
| Cache.InstalledGoesIff | src/cache.rs:1940-1964 | that condition from the outcomes of the cap alone, with the new stamp the latest of all |
| Cache.NewestGoesIff | src/cache.rs:2157-2185 | with a cap, the latest used clean entry goes exactly when dirty entries exist and their bytes plus its own exceed the cap; with none, always |
| Cache.TouchStamped | src/cache.rs:1692-1709 | a lookup that hits makes its entry the latest used, so the last to be evicted |
| Cache.BackendCache.UpsertAndMarkDirty | src/cache.rs:1973-1984 | index, mirrors, touched list and dirty flag change together; a vanished entry is reported |
| Cache.BackendCache.DrainDirty | src/cache.rs:2002-2026 | every dirty mutable entry once, none cleared |
| Cache.BackendCache.ClearDirty | src/cache.rs:2059-2085 | after a flush the entry is relabelled with the stamped version, hidden when tombstones exist, or dropped when it no longer matches the disk; no other entry changes |
| Cache.BackendCache.InvalidateDirty | src/cache.rs:2099-2102 | drops the dirty entries and no other |
| Cache.BackendCache.InvalidateAll | src/cache.rs:2114-2116 | drops everything |
| Cache.BackendCache.EnforceCap | src/cache.rs:2157-2185 | the eviction loop ends within the cap, or with one entry, or with only dirty ones; dirty entries stay; what is evicted is older than every surviving clean entry |
| Cache.CapEnforcedUnique | src/cache.rs:2157-2185 | with distinct use stamps those conditions fix the outcome: no other cache satisfies them |
| Xact.ReconciledRowCount | src/xact.rs:40-48 | the mirrored count is accepted exactly when it equals the slot count |
| Xact.ValidateFlushSnapshot | src/xact.rs:110-139 | passes exactly when counts agree and no id repeats |
| Xact.FlushAndClear | src/xact.rs:285-289 | one entry is flushed onto the current image and settled, or nothing changes |
| Xact.PreCommit | src/xact.rs:251-294 | all-or-nothing validation: a rejected transaction has written nothing; otherwise, when nobody writes in between, every dirty index is flushed and settled whatever the drain order |
| Insert.AmInsert | src/index/insert.rs:121-324 | load or reuse the mutable copy, upsert, mark dirty; on a miss it fails exactly when the loaded ids repeat, or caching is off, or the dirty entries leave no room under the cap for the copy |
| Insert.LoadedVanishesIff | src/index/insert.rs:322-324 | the error of a vanished entry, after a load, has that exact condition in every such step |
| Insert.InsertedOnto | src/index/insert.rs:145-321 | what is upserted into: the backend's own copy; else the rows and version on disk; else none, for an index seen empty; the copy's version moves one past that |
| Insert.EstimateGrows | src/index/insert.rs:250-251 | the memory estimate: one stored vector's bytes per row, and those of one row for an index with none |
| Insert.KeysApart | src/index/insert.rs:138-143 | two indexes never share a cache key, and one index does only while dimension and bit width are the same |
| ProtocolProof.UpsertedOk | src/index/insert.rs:272-321 | an upsert keeps the entry invariant: the touched rows of the copy are exactly this transaction's waiting changes |
| ProtocolSafety.CommitNeverFails | src/xact.rs:266-289 | in every reachable state, between two flushes of one commit too, validation passes for every dirty entry and no guard inside its flush fires on the disk as it is then |
| ProtocolSafety.NextKeeps | src/xact.rs:237-329 | every step of every backend keeps the protocol invariant; a commit is a validation, one flush per dirty index and an end, with steps of others in between |
| ProtocolTheorems.RunKeepsInvariant | src/xact.rs:237-329 | the invariant holds in every state of every run |
| ProtocolTheorems.FlushExact | src/xact.rs:157-200 | each flush of a commit changes its index's live rows by exactly the transaction's waiting upserts, last value per id, whatever others and VACUUM did meanwhile, and leaves the other indexes alone |
| ProtocolCommits.CommitExact | src/xact.rs:285-290 | in every run a commit flushes each index on its list exactly once, at a moment of its own, and changes it then by exactly the upserts waiting at its start, whatever others do between its flushes |
| ProtocolCommits.OnlyWaitingFlushed | src/xact.rs:285-290 | a commit flushes no index that was not on its list at the start |
| ProtocolCommits.WaitingIsFlushed | src/cache.rs:2002-2026 | every index with a waiting upsert is on that list |
| ProtocolTheorems.RunMatchesReplay | src/cache.rs:2033-2058 | every run refines a plain map per index to which commits, VACUUMs and rebuilds are applied in order |
| ProtocolTheorems.UnnamedRowUnchanged | src/index/relfile.rs:1091-1102 | a row changes only by an event that names it: no resurrected id, no lost row, no stale id spliced again |
| ProtocolTheorems.CleanHitIsLive | src/cache.rs:1692-1709 | in every reachable state a clean entry labelled with the current relfilenode and version serves exactly the live rows on disk |
| ProtocolHistory.StepFrom | src/cache.rs:1725-1763 | whatever a step does, every entry of a cache holds what its index has on disk before or after the step, with its own transaction's waiting upserts on top while unflushed, or is explained by whatever disk explained it before the step |
| ProtocolHistory.CleanWasOnDisk | src/cache.rs:2096-2102 | in every run a clean entry, whatever its label, holds exactly the rows its index had on disk at some moment, of the same relfilenode and no earlier version than its label: no rolled-back row stays visible in the backend, in stale and hidden copies too |
| ProtocolHistory.UnflushedIsOwn | src/cache.rs:1711-1763 | in every run an unflushed entry holds what its index had on disk at some moment, or nothing for an index seen empty, with exactly its own transaction's waiting upserts on top |
| ProtocolHistory.FollowsInRun | src/index/relfile.rs:1191-1209 | over a run an index moves to later relfilenodes and, within one, to strictly later versions or stays the same image: a label names one image |
| ProtocolVersions.FlushRaises | src/index/relfile.rs:1191-1210 | in every reachable state a flush raises its index's version to the larger of the next one and the copy's own |
| ProtocolVersions.VacuumRaises | src/index/vacuum.rs:150-316 | VACUUM raises a version by one, and only when it found a dead row |
| ProtocolVersions.VersionsBounded | src/index/insert.rs:299-321 | in every run no version, on disk or proposed by a copy, passes the largest starting or rebuilt one by more than the inserts, flushes and VACUUMs so far |
| ProtocolVersions.CountersLast | src/index/relfile.rs:1191-1210 | so a run with fewer of those than the counter has left saturates no version counter |
| ProtocolVersions.FlushesGoThrough | src/xact.rs:285-290 | and each flush a commit of such a run asks for can be taken |
| ProtocolHistory.FlushedCopyStaysIff | src/cache.rs:2059-2085 | after a flush the copy stays cached exactly when the image has its rows in its order; it then serves the next insert, and the next scan exactly when no tombstone remains |
| ProtocolHistory.FetchedIsFound | src/index/scan.rs:604-717 | a fetch that leaves its index cached leaves it where the same scan's next lookup hits |
| ProtocolHistory.InsertedIsFound | src/index/insert.rs:272-321 | an insert that succeeds leaves a copy holding the id, which the next insert and any scan of the transaction hit |
| ProtocolHistory.ScanSeesOneMoment | src/index/scan.rs:604-717 | in every run a scan with nothing unflushed is handed the rows its index had on disk at one moment between the scan's open and its fetch, also where the label was stale by then and where newer rows were filed under it earlier |
| ProtocolHistory.ScanSeesOwnUpserts | src/cache.rs:1692-1709 | a scan of a transaction with unflushed upserts to the index is handed some moment's rows with exactly those upserts on top |
| ProtocolTheorems.MirrorsAgree | src/index/insert.rs:299-321 | in every reachable state count, id list and touched list agree with the mutable copy, and dirty holds exactly when something was touched |
| ProtocolTheorems.CommitWritesOnlyStanding | src/xact.rs:296-323 | a row a commit changes was upserted by its own transaction, was not rolled back, and got the last value upserted |
| ProtocolTheorems.CommitCompleteIff | src/xact.rs:307-323 | what upserts that no longer wait do to a flush: all standing upserts of the index are on disk after it exactly when each of those was written again or was on disk already |
| ProtocolCommits.MissingIsLastMark | src/xact.rs:307-323 | in every run the upserts a commit will not write are those below the mark of its last savepoint rollback or cache wipe |
| ProtocolCommits.AllWaitIff | src/xact.rs:307-323 | in every run all standing upserts of a transaction still wait exactly when its last savepoint rollback or cache wipe, if any, found no upsert standing below it |
| ProtocolCommits.FlushWritesAllStanding | src/xact.rs:307-323 | each flush of such a transaction puts every standing upsert of its index on disk |
| ProtocolTheorems.SavepointLosesEarlierRow | src/xact.rs:307-323 | a commit begun in the state after a savepoint rollback has nothing to flush, while the upserts before the savepoint stand and commit |
| ProtocolExample.CommittedRowLost | src/xact.rs:307-323 | a concrete run from the start that loses a committed row |
| ProtocolCode.Commit | src/xact.rs:251-294 | in every reachable state the PreCommit code passes validation and every flush, with others running between flushes, and takes the steps of one whole commit; it stops early only on a used-up version counter |
| ProtocolCode.FlushNext | src/xact.rs:285-290 | one flush by the code, in any reachable state inside a commit, is the flush step |
| ProtocolCode.InsertOne | src/index/insert.rs:121-324 | the insert code takes the insert step and keeps the invariant |
| ProtocolCode.ScanFetchOne | src/index/scan.rs:604-717 | the fetch code takes the fetch step and returns that step's handle; with a current label and nothing unflushed the copy, whole or out-of-core, serves exactly the live rows on disk, whatever was cached |
| ProtocolCode.Rollback | src/xact.rs:296-305 | the abort callback takes the abort step |
| ProtocolCode.RollbackToSavepoint | src/xact.rs:307-323 | the savepoint callback takes the rollback step |
| Topk.RankedUnique | src/cache.rs:1252-1257 | score descending then slot ascending admits one ranking only |
| Topk.TopKFacts | src/cache.rs:1244-1262 | the k best, without the sort: as many as asked or as there are, all candidates, none ranked after a later one, none left out ranked before one kept |
| Topk.TopKParts | src/cache.rs:1236-1262 | merging exact per-chunk best lists gives the best of everything |
| Topk.MergeTopK | src/cache.rs:1244-1262 | concatenate, sort, truncate computes the k best of the union |
| Topk.IsTopKIff | src/cache.rs:1236-1243 | a list of candidates is a best-k list, ties ordered and cut in any way, exactly when its scores are the k best scores |
| Topk.MergedIsTopK | src/cache.rs:1054-1058 | whatever order each chunk gives equal scores, the merged list is a best-k list of all rows with the serial scores |
| Topk.BestUniqueIff | src/cache.rs:1236-1243 | whatever a kernel does with equal scores, the best-k list is one and the same exactly when no tie reaches the first k places |
| OocGather.AddRange | src/cache.rs:975-1012 | a slot range is cut into live runs around tombstones; runs and slot list describe the same slots |
| OocGather.PlanGather | src/cache.rs:931-1012 | the flattened ranges and the slot list are the same sequence, probed cells once each and then the append tail |
| OocGather.GatheredExactly | src/cache.rs:946-974 | exactly the live slots of the probed existing cells and of the append tail are gathered; `BuildSearch` says which rows those are |
| OocGather.GatheredOnce | src/cache.rs:963-974 | no slot is gathered twice, for any probe list, given that the cells partition their slots |
| OocGather.PageOf | src/index/relfile.rs:2820-2824 | a slot's page exists and holds it |
| OocGather.GatherCodes | src/index/relfile.rs:2803-2836 | copying run by run and page by page yields the codes of the listed slots in order, without gaps |
| OocGather.CodeIsRecord | src/index/relfile.rs:2803-2836 | on pages cut from one code chain, the code read for a slot is that slot's fixed-stride record of the chain |
| OocSearch.CapScanChunks | src/guc.rs:709-712 | at least one chunk, and several only when each holds at least 2048 rows |
| OocSearch.SearchCompactChunk | src/cache.rs:1135-1179 | searching a chunk on its own slices and lifting its slots is a best-k search of those rows of the whole buffer |
| OocSearch.SearchCompactParallel | src/cache.rs:1188-1233 | for every chunk count the merged result answers the whole buffer |
| OocSearch.SearchOoc | src/cache.rs:922-1107 | the ids returned are the best-k of the gathered, allowed slots, the same for every thread count; a slot past the id table is an error |
| OocTheorems.ProbeMask | src/index/ivf.rs:202-236 | the whole-index slot mask: probed cells and append tail |
| OocTheorems.ApplyTombstones | src/index/scan.rs:1576-1589 | clears exactly the tombstoned slots |
| OocTheorems.ApplyAllowlist | src/index/scan.rs:1601-1611 | clears exactly the slots whose id is not allowed |
| OocTheorems.WholeMask | src/index/scan.rs:1487-1496 | probe mask, tombstones and allowlist together |
| OocTheorems.OocMatchesMaskedScan | src/cache.rs:946-955 | out-of-core and masked whole-index search agree: the same best-k up to order among equal scores, and the same list when the allowed slots were gathered in order |
| OocTheorems.AgreeIff | src/cache.rs:946-955 | with kernels that break ties by slot, the two paths give identical lists for every query and every k exactly when the allowed slots are gathered in ascending order |
| OocTheorems.GatherOrderIff | src/cache.rs:963-974 | that order holds exactly when the probed cells that hold a candidate are visited in cell order |
| OocTheorems.PathsAgreeIff | src/cache.rs:946-955 | with such kernels, identical results for every query and every k exactly under that condition on the probe list and the directory |
| OocTheorems.AgreeAnyTiesIff | src/cache.rs:946-955 | with kernels that order ties in any way, identical lists for a query and a k exactly when no tie reaches the first k places of the whole-index ranking |
| OocTheorems.ProbesInOrder | src/cache.rs:963-974 | probing in cell order gathers in slot order |
| OocTheorems.EveryCellProbed | src/index/ivf.rs:202-236 | probing every cell covers every slot |
| BuildSearch.BuiltPlaces | src/index/ivf.rs:1721-1759 | the build fills the slots with all of cell 0, then all of cell 1, and so on, each cell's members in row order |
| BuildSearch.OneCellGathered | src/cache.rs:963-974 | on a built index, probing one cell reads through the permutation exactly the rows assigned to it, in order, and then the appended rows |
| BuildSearch.GatheredIffPlaced | src/cache.rs:963-974 | for any probe list a slot is gathered exactly when it is live and was filled by the build for a probed cell, or appended later |
| BuildSearch.ProbedIffPlaced | src/index/ivf.rs:202-236 | the whole-index mask lets a slot through exactly when the build filled it for a probed cell, or it was appended later |
| BuildSearch.RowReadIff | src/index/ivf.rs:1721-1759 | a vector is among those read exactly when some probed cell is one of those it was assigned to |
| OocExample.OutOfOrderGather | src/cache.rs:963-974 | a two-cell index of real pages, probed in the other order, gathers its slots out of order |
| OocExample.TieOrderMayDiffer | src/cache.rs:1054-1058 | on that index the out-of-core search returns row 8 and the masked whole-index scan row 7, for the same query, probes and kernel |
| Spill.RowRoundTrip | src/index/build.rs:111-206 | a record written and read back is the same id and vector |
| Spill.LeastFirst | src/index/build.rs:118-118 | numbers are written lowest byte first |
| Spill.CorpusSpill.Push | src/index/build.rs:111-131 | two writes append one record |
| Spill.CorpusSpill.ReadOne | src/index/build.rs:152-206 | random access returns exactly the record pushed at that position |
| Spill.CorpusSpill.ReadBlock | src/index/build.rs:137-147 | a sequential block returns exactly the records pushed |
| Reservoir.DeferredIsEager | src/index/build.rs:455-459 | selection does not look at the rows: mapping each row of the finished sample equals sampling mapped rows |
| Reservoir.RotatesLateIff | src/index/build.rs:442-453 | rotating the finished sample in one batch gives what rotating each arriving row would, for every stream, capacity and draws, exactly when the rotation of a row does not depend on the rows of its batch |
| Reservoir.LateRotationShows | src/index/build.rs:442-453 | the reservoir code run with a rotation that does depend on them gives another sample than rotating on arrival |
| Reservoir.SampledRows | src/index/build.rs:460-480 | the sample holds stream rows at pairwise different positions |
| Reservoir.PlaceHoldsLast | src/index/build.rs:460-480 | some arrival went to every place of the sample, its own while filling up or the one drawn after, and the place holds the last arrival that did |
| Reservoir.IvfReservoir.Push | src/index/build.rs:460-480 | append, or overwrite the drawn slot: the flat buffer holds the sample of the stream so far, min(seen, cap) rows, in each place the last arrival that went there |
| Reservoir.IvfReservoir.Drain | src/index/build.rs:1069-1099 | the rotation is applied once to the whole sample of the stream |
| Partition.BuildPermutationSoft | src/index/ivf.rs:1721-1759 | cell ranges lie one after another over all slots and each lists exactly its members in row order |
| Partition.MembersExactly | src/index/ivf.rs:1721-1759 | a row is listed in a cell exactly when it was assigned to it |
| Partition.MembersStable | src/index/ivf.rs:1742-1758 | inside a cell rows keep their order |
| IvfBuild.Quantizer.AddWithIds | src/index/build.rs:1272-1283 | the first batch fixes the calibration; a repeated id refuses the batch |
| IvfBuild.EncodeInCellOrder | src/index/build.rs:1263-1328 | slot s receives record permutation[s] with its real id; codes and calibration depend on the fixed prefix, not on the chunk size; no batch is refused |
| IvfBuild.SweepSpill | src/index/build.rs:1575-1633 | the sweep assigns block by block and chunk by chunk, joined in row order, and accumulates the sums of all rows in row order |
| IvfBuild.SizesInvisibleIff | src/index/build.rs:941-949 | the sweep's cells are those of one call over the whole corpus, for every corpus, block and work-chunk size, exactly when the cells of a row do not depend on the rows of its batch |
| IvfBuild.ChunkSizeShows | src/index/build.rs:941-949 | the sweep run with a batch computation that does depend on them shows the chunk size |
| IvfBuild.SumJoin | src/index/onebit.rs:93-109 | running sums taken block by block equal the whole-corpus sums with no law asked of addition |
| IvfBuild.PackInCellOrder | src/index/build.rs:1647-1671 | the 1-bit codes of the slots in cell order, one fixed-stride code each, for every chunk size |
| FlatBuild.BuildState.Accept | src/index/build.rs:2150-2157 | a row is staged and a full chunk handed over; fails only on a repeated id |
| FlatBuild.BuildState.Finish | src/index/build.rs:487-511 | succeeds exactly when no id repeats, and then nothing staged is lost or reordered; the calibration comes from the first chunk |
| OneBit.PackSigns | src/index/onebit.rs:42-51 | bit i says whether element i is positive; padding bits are 0 |
| OneBit.BqRelation.InsertRow | src/index/insert.rs:423-584 | each of the four errors has its exact condition and leaves the image unchanged; else one image rewrite whose live view is the upsert |
| OneBit.MeanSeededIff | src/index/insert.rs:466-475 | the zero mean given to an empty index is its first row exactly when that row is zero |
| OneBit.InsertedShape | src/index/insert.rs:423-584 | the rewritten image: the next version, no cell layout, the mean kept, or zero on an index with no dimension and no rows yet |
| OneBit.InsertIsUpsert | src/index/insert.rs:523-561 | the live view changes like a map: the id has the new code only, every other id keeps its codes |
| OneBit.InsertKeepsOneCode | src/index/insert.rs:537-539 | slots repeating an id never disagree |
| BqSearch.Hamming | src/index/onebit.rs:231-248 | eight-byte words plus a byte tail count exactly the differing bits |
| BqSearch.TopkHammingSlots | src/index/onebit.rs:290-322 | the bounded heap returns the k nearest yielded slots by counted differing bits, nearest first, ties to the lower slot, in any yield order, each with its distance |
| BqSearch.SlotsAreNearest | src/index/onebit.rs:290-322 | the same of the ranking the heap is specified by: every yielded slot left out is no nearer than each one returned, and fewer than k come back only when all do |
| BqSearch.SearchSlots | src/cache.rs:770-810 | the reported rows are the nearest of the live slots searched, at most k, nearest first, ties to the lower slot, each scored by minus the number of bits its code differs in |
| BqSearch.AnswerIsNearest | src/cache.rs:770-810 | the same of the answer the search is specified by, for every over-fetch, mask and tombstone bitmap |
| BqSearch.AnswerIsLivePrefix | src/cache.rs:799-809 | what is returned is a prefix of the ranked live slots |
| BqSearch.SearchShortIff | src/cache.rs:777-786 | with the over-fetch really used, fewer than min(k, live) come back exactly when more than want - k dead slots rank in the top want and a live slot ranks behind them |
| BqSearch.NeverShortWithoutTombstones | src/cache.rs:777-786 | without a bitmap the k best are returned |
| Kernels.LaneSum | src/kernels.rs:109-127 | the eight-lane loop computes the defined order of additions |
| Kernels.SumIsTotal | src/kernels.rs:105-127 | without rounding the lanes and the rest add every term exactly once |
| Kernels.DotIsInner | src/kernels.rs:105-127 | without rounding the product is the inner product |
| Kernels.CosineIsQuotient | src/kernels.rs:73-103 | without rounding the cosine times the two lengths is the inner product; the distance is not a number exactly when a vector is zero |
| Kernels.CosineSymmetric | src/distance.rs:411-414 | swapping the operands gives the same bits, from commutative multiplication alone |
| OperandCache.Slot.Get | src/distance.rs:172-213 | the slot returns what a fresh fetch and decode would, by identity, by bytes or by decoding; a kept norm belongs to the kept vector |
| OperandCache.Slot.CachedNorm2 | src/distance.rs:217-222 | the cached norm is the norm of the current vector |
| OperandCache.CosineDistance | src/distance.rs:393-418 | the cached distance equals the uncached one on either side |
| OperandCache.AnswerCalls | src/distance.rs:270-291 | for every sequence of calls the cache changes no answer |
| Sparsevec.New | src/sparsevec.rs:37-76 | accepts exactly the well-formed triples; each error has its exact condition and the element errors name the first bad position |
| Sparsevec.ToDense | src/sparsevec.rs:90-96 | the dense array holds each stored value at its index and 0 elsewhere |
| Sparsevec.SparseFormDense | src/sparsevec_ops.rs:133-144 | dropping the zeros of a dense vector loses nothing |
| Sparsevec.Output | src/sparsevec.rs:119-133 | the printed text |
| Sparsevec.PrintedExample | src/sparsevec.rs:119-133 | indices are printed from 1, entries separated by commas, the dimension last; the empty vector prints its braces |
| SparseParse.Parse | src/sparsevec.rs:140-189 | the token loop computes the grammar, first error first |
| SparseParse.ParseIff | src/sparsevec.rs:137-189 | a text is accepted as a literal exactly when it reads, spaces aside, as an opening brace, the index:value entries separated by commas, a closing brace, a slash and the dimension |
| SparseParse.Input | src/sparsevec.rs:109-117 | accepted exactly when the text parses and the triple is well-formed |
| SparseParse.PrintedReadsBack | src/sparsevec.rs:119-189 | printing then parsing gives the vector back, the empty one included |
| SparseParse.RoundTrip | src/sparsevec.rs:108-189 | the output code followed by the input code returns the same vector |
| SparseOps.SparseWalk | src/sparsevec_ops.rs:15-44 | the two-pointer walk equals the dense loop in the same order of operations, given only that visiting two zeros does nothing |
| SparseOps.InnerProduct | src/sparsevec_ops.rs:47-52 | equals the dense inner product; different dimensions are an error |
| SparseOps.L1Distance | src/sparsevec_ops.rs:76-81 | equals the dense L1 distance |
| SparseOps.L2SquaredDistance | src/sparsevec_ops.rs:60-68 | equals the dense squared L2 distance |
| SparseOps.FoldsAreTotals | src/sparsevec_ops.rs:47-81 | the three folds are the sum of the products, of the absolute differences and of the squared differences |
| SparseSum.Accumulate | src/sparsevec_ops.rs:200-208 | adds one row to the state, or fails exactly when the rows cannot be summed |
| SparseSum.Combine | src/sparsevec_ops.rs:211-236 | two partial states merge into the state of the rows of both |
| SparseSum.RunPlan | src/sparsevec_ops.rs:200-236 | any tree of scans and combines sums the same rows and fails exactly when they cannot be summed |
| SparseSum.SumFinal | src/sparsevec_ops.rs:239-252 | the result is the sparse form of the dense sum |
| Bits.AtInByte | src/bitvec.rs:25-28 | position 8k + j is bit 7 - j of byte k: the first bit is the highest of byte 0 |
| Bits.TailCorrected | src/bitvec.rs:63-70 | subtracting the tail's bits never underflows and leaves the bit-by-bit count |
| Bits.ZipCounts | src/bitvec.rs:129-144 | combining bytes then counting is counting positions |
| Bitvec.Popcount | src/bitvec.rs:58-71 | counts the set bits among the first n, whatever the tail holds |
| Bitvec.HammingDistance | src/bitvec.rs:129-144 | counts the differing positions; different lengths are an error |
| Bitvec.JaccardDistance | src/bitvec.rs:147-167 | one minus shared over joint positions, within 0 and 1, and 0 exactly when nothing differs |
| Bitvec.Input | src/bitvec.rs:84-111 | accepted exactly when trimmed, non-empty, short enough and all 0 or 1; bit i is character i |
| Bitvec.PrintThenParse | src/bitvec.rs:84-119 | every bit survives, and the bytes do exactly when the tail was clear |
| Bitvec.ParseThenPrint | src/bitvec.rs:84-119 | reading then printing gives the trimmed text |
| Text.TrimTakesSpaces | src/sparsevec.rs:141-146 | trimming takes spaces off both ends and nothing else, and as many as there are |
| Text.SplitIff | src/sparsevec.rs:163-163 | the parts are the only pieces without the separator that join up to the text |
| Text.SplitOnceIff | src/sparsevec.rs:165-167 | the text is cut at the first separator |
| Text.RSplitOnceIff | src/sparsevec.rs:142-144 | the text is cut at the last separator |
| Text.ParseShow | src/sparsevec.rs:145-148 | a printed number reads back exactly when it fits 32 bits |
| Text.DecimalExamples | src/sparsevec.rs:168-171 | numbers are decimal, most significant digit first, with an optional sign |
| Colbert.CollectTokenRows | src/colbert.rs:891-954 | a document appears exactly when it has a token and all its tokens are good, with exactly its tokens, in id order |
| Colbert.FetchDocTokens | src/colbert.rs:839-885 | the loop returns, in id order, each document with the tokens that follow its last bad one, when there are any |
| ColbertSearch.ChunksAreTokens | src/colbert.rs:869-876 | the buffer of a document cut every `dim` numbers is its tokens after the last bad one |
| Colbert.DroppedIff | src/colbert.rs:839-885 | a document is left out exactly when each of its good tokens has a bad one of the right length after it |
| Colbert.BadTokenDropsIff | src/colbert.rs:873-876 | that a bad token drops the whole document holds of given rows exactly unless a good token follows the last bad one |
| Colbert.BadTokenKept | src/colbert.rs:873-876 | the failing input: the loop run on a bad token followed by a good one returns the document |
| Colbert.GoodDocsAgree | src/colbert.rs:888-890 | on a document whose tokens are all good this loop and the build's read the same tokens |
| ColbertSearch.MaxSimDot | src/colbert.rs:776-797 | the sum over query tokens of the best similarity |
| ColbertSearch.MaxSimIsSum | src/colbert.rs:776-797 | over a document with a token, the score is the sum of one best similarity for each query token |
| ColbertSearch.BestSimIsMax | src/colbert.rs:776-797 | that best is reached and not exceeded |
| ColbertSearch.BestIsMax | src/colbert.rs:651-665 | the union keeps every document hit with its largest score |
| ColbertSearch.CapUnordered | src/colbert.rs:665-673 | the capped candidates do not depend on the order the map is read in |
| ColbertSearch.SearchTokens | src/colbert.rs:692-717 | one search per query token, hits mapped to documents |
| ColbertSearch.AllHitsMember | src/colbert.rs:692-717 | a document and score are among the hits exactly when the search of some query token returned that score in a slot of the document |
| ColbertSearch.SlotOwner | src/colbert.rs:739-753 | the slot of token t of document i comes after all tokens of the documents before, and belongs to document i |
| ColbertSearch.Search | src/colbert.rs:153-203 | for all limits: the exact MaxSim ranking of the candidates, which are the candidate_n documents with the best token scores; with full token and document limits, brute-force MaxSim over all collected documents |
| ColbertSearch.RescoredMember | src/colbert.rs:170-203 | what the last stage ranks: exactly the candidate documents with a token, each with its exact score |
| ColbertSearch.CappedUnique | src/colbert.rs:665-673 | two caps of the same best-score map are the same list, whatever order each map was read in |
| ColbertSearch.SearchDetermined | src/colbert.rs:153-203 | the collected documents and the candidates, and so the answer, are a function of the inputs for every limit |
| ColbertSearch.FetchedAreCollected | src/colbert.rs:803-886 | re-reading the candidates' rows yields exactly the candidates' collected documents |

## Left out

- Xact.ValidateFlushSnapshot: does not reject id 0, because the code does not.
- ProtocolCommits.CommitExact: assumes no version counter is saturated at 2^32 - 1, where the strict increase ends (`Relfile.VersionAdvancesIff`); `ProtocolVersions.CountersLast` says how long that takes.
- ProtocolCode.InsertOne: an index the insert first saw empty has not been rebuilt with soft assignment before it takes the lock; the inserter's own lock on the index rules that out.
- Relfile.FlushLive: asks for distinct ids, so it says nothing about flushing onto a soft-assigned IVF image; `aminsert` cannot load such an image for mutation.
- OocGather.GatheredOnce: asks that the cells partition their slots, as every build leaves them; the loader checks only their total.
- OocSearch.SearchOoc: slot numbers are unbounded; below 2^32 rows the casts to 32 bits never truncate.
- IvfBuild.SweepSpill: the batch computation is a parameter, one answer per row; the floating-point code of normalising, rotating and comparing with centroids is not modelled.
- IvfBuild.Quantizer.AddWithIds: the external quantizer encodes row by row once calibrated, as `src/index/build.rs` relies on when it feeds slots in chunks.
- ProtocolHistory.UnflushedIsOwn: when an insert saw the index empty in its first, unlocked read, that moment is not a state of the run, so the copy is only said to hold nothing beside the upserts.
- BqSearch.SearchSlots: does not promise k hits, because the over-fetch is bounded.
- OneBit.BqRelation.InsertRow: a vector has at least one element, and a chain of no rows holds no codes.
- SparseSum.RunPlan: sums are real numbers; rounding of the running `f64` sum and its final `f32` cast is not modelled.
- Colbert.CollectTokenRows: rows arrive ordered by document, as the query asks.
- ColbertSearch.Search: both stages read the same rows; freshness of the token-index cache, which is keyed by row count, is not claimed.
- The flush has no guard on dimension, so two dimensions inserted into one empty, unpinned index are not covered: an image has one shape.
- `am_find_dirty_by_rel` and the fallbacks of `flush_to_relfile` for a vanished relation beyond skipping it.
- The flush of one index, VACUUM and REINDEX are single steps under the rewrite lock; page writes, WAL and crash recovery inside them are not modelled.
- TRUNCATE or REINDEX inside a transaction that already holds unflushed rows of the index, two-phase commit, and errors raised between the flushes of a commit or after them: an abort comes before the first flush.
- Graph and 1-bit indexes take no part in the protocol's runs; a 1-bit insert enters there only as the cache wipe it causes.
- Graph (Vamana) indexes, k-means, centroid probing, partition summaries, half vectors, the planner cost model and the configuration functions other than the chunk cap.
- `turbovec.knn` and its cache, which are best effort by their own description.
- Multi-segment addressing inside a temporary file, and the typed reads of page payloads.
- Floating-point error bounds, NaN scores, recall and speed.
