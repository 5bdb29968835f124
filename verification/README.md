# Accounts database: a verified model

This project models the accounts database of the validator (`accounts-db/`) and proves what its comments and tests
promise. The core is the interplay of five things: the accounts index, the write cache, the storages, the reference
counts, and the background work (flush, clean, purge, shrink) that moves accounts between them while loads go on.
Around the core stand the self-contained algorithms of the same crate (account locks, blockhash queue, storage reader,
shrink selection, startup totals, largest accounts, storage ordering, zero-lamport elision) and the crate-ordering
script in `ci/`.

## The parts

**Loads beside background work** (`LoadProtocol`, `LoadInvariant`, `LoadInvariantProof`, `LoadReaders`,
`LoadReadersProof`, `LoadTheorems`). A transition system whose steps are single atomic accesses: one index entry, one
map, one counter. Readers read the index, look in the cache or in the two storage maps, and retry. Stores, flush, clean,
slot purge and parallel shrink run between any two steps of a reader. An invariant is proved for every step, hence for
every state of every run. From it follow: no index entry dangles, no reader panics, a fixed-root load misses the cache
at most once, counts are exact, and storages are removed only when unreferenced.

**Loads against the history of writes** (`LoadHistory`, `LoadDatabase`). The protocol's clean and shrink steps may drop
more than the source does. In the runs where they drop what the source drops, a concurrent load returns the newest
visible write of the history at a moment of the load, and it finds nothing only if there is no visible write or the
newest is zero-lamport. What the operations of `Database` drop is shown to be of that kind.

**From operations to atomic steps** (`LoadPaths`, `Refinement`, `RefineClean`, `RefineShrink`, `RefineFlush`,
`RefineRuns`). Every operation of `Database` is a sequence of such protocol steps between two states that hold the same
index, cache, storages, roots and history as the database before and after. So every run of the database is a run of the
protocol, and what is proved of loads beside single steps covers the operations of the value model.

**The database between background operations** (`Database`, `DatabaseInvariant`, `DatabaseProof`, `DatabaseTheorems`,
`NewestRecords`, `AccountsDatabase`, `SlotList`, `IndexEntry`). A value model of whole operations with reference counts
and obsolete marks, and the class `AccountsDb` whose methods work key by key and slot by slot and are proved to have
those effects. Over every run, loads return the newest visible write recorded in an independent history. A restart from
the storages alone gives each key its newest rooted write, also while newer roots are still in the cache.

**Told by the log** (`WriteLog`, `OperationEffects`). The same results without the model's own vocabulary: a load or a
restart returns the account of the last store operation into the newest slot it sees, if that has lamports, and nothing
otherwise. Each operation's effect is stated entry by entry and record by record on the state before and after.

**Incremental snapshots** (`IncrementalSnapshot`). The law behind clean's filter: the storages of a full snapshot
together with the newer storages of today rebuild every key's newest rooted write, in every run whose purges spare the
keys with a version above the full snapshot. Clean is shown to be such a purge.

**Clean** (`CleanDependencies`, `CleanPurge`, `CleanTheorems`). The worklist that decides which zero-lamport keys can go
is proved to compute the greatest set that can be purged together, and the incremental-snapshot filter that follows
never splits a store. A whole clean, with or without the filter, changes no load at or above the clean root and
resurrects no account, while newer roots may still be in the cache.

**References** (`FlushReferences`, `StrandedReference`). When a flush keeps reference counts exact, and a run in which
one does not.

**Counters** (`StorageAccounting`). `count` and `alive_bytes` of every storage are exactly those of the index entries
that point into it, so the assertion in `remove_accounts` cannot fire.

**Self-contained algorithms**: `AccountLocks`, `BlockhashQueue`, `StorageReader`, `SortDedup`, `ShrinkCandidates`,
`Startup`, `StartupRebuild`, `LargestAccounts`, `StorageOrderer`, `ZeroLamportElision`, `CrateOrder`. `Types`, `Sets`
and `Arithmetic` hold what they share.

## Two promises that do not hold as stated

- *A key's reference count is the number of storages that hold a record of it.* A flush that marks obsolete accounts
  can remove a storage that still holds an outdated record of another key without taking back that key's reference.
  `FlushMayLeaveReference` gives a run from the empty database. `FlushKeepsRefs` says by the state before the flush
  exactly when a count stays exact: no storage with an outdated record of the key has all its alive keys among the
  cached accounts that are cleaned. The count is never too small (`RefsCover`, part of the invariant), and that is what
  the no-resurrection results need.
- *Storages are returned small before large, in cycles.* The orderer applies its selection to the storages' indices
  instead of their ranks by capacity. `MayNotInterleave` gives three storages out of order. `InterleavesExactly` says
  for which numbers of storages and rates the promise holds whatever the capacities, equal ones included: when no large
  storage is taken, when only the last one taken is large, or when there are at most two storages. Storages that come
  sorted by capacity are always in order (`SortedInterleaves`).

## Assumptions

- One background actor at a time; shrinks of different slots run in parallel with each other. Stores and loads run
  beside it. Index accesses of one key are atomic, and map accesses are sequentially consistent.
- Nothing is stored into a slot that is rooted or being purged; roots are added in ascending order.
- While a load with a fixed root is in progress, no root is added and no slot of its ancestors is purged.
- In `Database` and `LoadHistory`, a load's unrooted ancestors are newer than every root. In `Database` its
  root bound is at least the highest root that older versions were dropped for. A missing bound is a bound above every
  slot; a flush without cleaning has no clean root.
- Clean runs when the roots up to the clean root are flushed; the source asserts this. The no-resurrection results ask
  it of the earlier cleans of the run as well (`IsTimelyRun`). Its latest full snapshot slot is a parameter.
- When a full snapshot is taken, nothing above its slot is flushed.
- A storage holds one record per key, so an index entry's offset is left implicit except in `StorageAccounting`.
  `SortDedup` models the step that makes it so.
- Obsolete ranges of a storage do not overlap (`StorageAccounting` proves that no account is marked twice).
- Ratios in f64 are modelled as reals.

## Model

| member | source | states |
|---|---|---|
| LoadInvariantProof.EveryStepKeeps | accounts-db/src/accounts_db.rs:4547-4664 | each of the 38 atomic steps of store, root, flush, reclaim, clean, purge, shrink and load keeps the invariant on index, cache, storage maps, reclaims and counts |
| LoadInvariantProof.DeadUnreferenced | accounts-db/src/accounts_db.rs:5108-5175 | a slot whose storage's count reached zero has no index entry |
| LoadInvariantProof.ReclaimMapped | accounts-db/src/accounts_db.rs:5089-5098 | every pending reclaim has a mapped storage with a positive count, so a reclaim is never skipped for want of a storage |
| LoadInvariantProof.FlushSlotKeeps | accounts-db/src/accounts_db.rs:4547-4598 | choosing what to write and what to drop from the batch keeps the invariant |
| LoadInvariantProof.ShrinkSwapKeeps | accounts-db/src/account_storage.rs:291-310 | publishing the shrunk storage while readers may hold the old id keeps the invariant |
| LoadReadersProof.SecondReadIsStored | accounts-db/src/accounts_db.rs:3732-3903 | after a cache miss under a fixed root, a newest visible version in a rooted slot is a stored one |
| LoadReadersProof.ReadEntryPhase | accounts-db/src/accounts_db.rs:3557-3575 | re-reading the index after a failed lookup never shows the same storage id again |
| LoadReadersProof.LookupReader | accounts-db/src/account_storage.rs:52-72 | three separate lookups that all fail prove the storage id gone for good; a reader holding the entry's lock always finds its account |
| LoadTheorems.EveryStepSafe | accounts-db/src/accounts_db.rs:3585-3722 | every step keeps what each reader in progress relies on |
| LoadTheorems.InvariantOfRuns | accounts-db/src/accounts_db.rs:3585-3722 | the invariant holds in every state of every run from the empty database |
| LoadTheorems.NoEntryDangles | accounts-db/src/accounts_db.rs:3585-3722 | in every reachable state a cached entry has its account in the cache, and a stored entry has its storage in one of the two maps, holding the account |
| LoadTheorems.NoReaderPanics | accounts-db/src/accounts_db.rs:3732-3903 | no reader reaches the bad-index-entry panic or fails to read under the entry's lock |
| LoadTheorems.FixedRootMissesOnce | accounts-db/src/accounts_db.rs:3752-3790 | a load with a fixed root misses the write cache at most once |
| LoadTheorems.SecondLookupHits | accounts-db/src/accounts_db.rs:3752-3790 | in every run, once a load with a fixed root went back from the write cache to the index, no later cache lookup of that load does |
| LoadTheorems.NoBadEntry | accounts-db/src/accounts_db.rs:3557-3575 | in every run, a reader that retries never finds the storage it could not open in the index again |
| LoadTheorems.LockedFinds | accounts-db/src/accounts_db.rs:3585-3722 | in every run, a reader holding the entry's lock finds its account in the cache or its storage in the map, and a storage that is found has the account |
| LoadTheorems.LoadsWhatWasStored | accounts-db/src/accounts_db.rs:3906-3967 | a load returns exactly the account last stored in the slot it reports |
| LoadTheorems.LoadsTheLatest | accounts-db/src/accounts_db.rs:3906-3967 | the returned version was the newest visible one at a moment of the same load |
| LoadTheorems.CountsAreExact | accounts-db/src/account_storage_entry.rs:220-243 | in every run each storage's count is the number of index entries into it when no background work runs or others are shrunk, never less in flush and clean, and the replacement of a shrunk storage counts the entries moved and to be moved |
| LoadTheorems.RemovedIsUnreferenced | accounts-db/src/accounts_db.rs:4135-4195 | in every run a storage is removed only when no index entry refers to its slot |
| LoadHistory.EveryStepHistory | accounts-db/src/accounts_db.rs:3585-3722 | every step keeps the newest rooted write of each key indexed, or zero-lamport with no rooted entry left |
| LoadHistory.HistoryOfRuns | accounts-db/src/accounts_db.rs:3585-3722 | that holds in every state of every run in which clean and shrink drop what the source drops |
| LoadHistory.LoadsTheNewestWrite | accounts-db/src/accounts_db.rs:3906-3967 | a concurrent load returns the newest visible write of the history at a moment of the load |
| LoadHistory.MissesOnlyZero | accounts-db/src/accounts_db.rs:3906-3967 | a concurrent load finds nothing only if no write is visible or the newest is rooted and zero-lamport |
| LoadDatabase.OlderIsProper | accounts-db/src/accounts_index.rs:1496-1531 | the outdated versions that clean drops are a proper clean step of the protocol |
| LoadDatabase.PurgeIsProper | accounts-db/src/accounts_db.rs:1976-2021 | so is the purge of a zero-lamport key |
| LoadDatabase.ShrinkIsProper | accounts-db/src/accounts_db.rs:2385-2405 | so are the single-reference zero-lamport records that shrink drops |
| Refinement.StoreRefines | accounts-db/src/accounts_db.rs:5328-5386 | a store of a batch is a sequence of protocol steps from a state that holds the database to one that holds the result |
| Refinement.RootRefines | accounts-db/src/accounts_db.rs:5756-5770 | so is rooting a slot |
| Refinement.PurgeRefines | accounts-db/src/accounts_db.rs:4076-4123 | so is purging an unrooted slot |
| RefineClean.ReclaimAll | accounts-db/src/accounts_db.rs:5055-5178 | lowering the counters slot by slot removes exactly the storages whose last index entry was reclaimed, with their roots |
| RefineClean.OlderRefines | accounts-db/src/accounts_db.rs:1216-1239 | cleaning outdated versions is a sequence of proper steps, key by key and then slot by slot |
| RefineClean.PurgeZeroRefines | accounts-db/src/accounts_db.rs:1976-2021 | so is purging zero-lamport keys |
| RefineShrink.ShrinkRefines | accounts-db/src/accounts_db.rs:2834-2936 | so is a shrink, through the second storage map |
| RefineFlush.FlushRefines | accounts-db/src/accounts_db.rs:4486-4664 | so is a whole flush, newest slot first and key by key within a slot |
| RefineRuns.OperationRefines | accounts-db/src/accounts_db.rs:4486-4664 | every operation of the database is a sequence of proper protocol steps |
| RefineRuns.RunRefines | accounts-db/src/accounts_db.rs:4486-4664 | the protocol goes from each database of a run to the next, from the empty one on |
| RefineRuns.EveryRunRefines | accounts-db/src/accounts_db.rs:3585-3722 | each database of a run is held by the last state of a proper protocol run, so what holds of those runs holds of it |
| CleanDependencies.CollectStoreCounts | accounts-db/src/accounts_db.rs:1906-1964 | for each store, its alive count less its candidates, with those candidates; no count underflows |
| CleanDependencies.TakeBack | accounts-db/src/accounts_db.rs:1309-1335 | the pending worklist takes back every store reachable through shared candidates and no store of a purgeable set; every lookup succeeds and the loop ends |
| CleanDependencies.CalcDeleteDependencies | accounts-db/src/accounts_db.rs:1241-1339 | whatever the order of the candidates, exactly the stores that cannot go are taken back |
| CleanDependencies.KeptIsGreatestClosed | accounts-db/src/accounts_db.rs:1241-1339 | whatever the order of the worklist, the candidates that survive are the greatest set in which each key is purged from all its storages and each store empties |
| CleanDependencies.FilterZeroLamportClean | accounts-db/src/accounts_db.rs:2248-2303 | candidate by candidate: with no snapshot, or a clean root up to it, all survivors are purged; beyond it, exactly those with a version above it are kept for later with their newest one |
| CleanDependencies.CandidatesToPurge | accounts-db/src/accounts_db.rs:1906-1990 | store counts, worklist and filter together give the greatest purgeable set less what has to wait for the next full snapshot |
| CleanDependencies.PurgeIsUnique | accounts-db/src/accounts_db.rs:2248-2303 | no iteration order changes that result |
| CleanDependencies.GreatestIsUnique | accounts-db/src/accounts_db.rs:1241-1339 | that set is unique, so no iteration order changes the result |
| CleanDependencies.KeptIsClosed | accounts-db/src/accounts_db.rs:2262-2278 | what the filter keeps can be purged together |
| CleanDependencies.KeptIsGreatest | accounts-db/src/accounts_db.rs:2262-2278 | every set that can be purged together is kept |
| CleanDependencies.ClosedStoresDie | accounts-db/src/accounts_db.rs:2266-2278 | purging such a set removes as many accounts from each of its stores as the store counts |
| CleanDependencies.FilteredIsClosed | accounts-db/src/accounts_db.rs:2279-2303 | for any candidates, what the filter leaves can be purged together if and only if no store mixes keys of both kinds |
| CleanDependencies.SingleVersionsStayClosed | accounts-db/src/accounts_db.rs:2279-2303 | with one version per candidate it always can |
| CleanPurge.CountsCoverCandidates | accounts-db/src/accounts_db.rs:1930-1955 | in every reachable database the alive counts cover the candidates |
| CleanPurge.ClosedCanBePurged | accounts-db/src/accounts_db.rs:1976-2021 | what the worklist finds meets every condition of the purge, cache and all versions included |
| CleanPurge.OneRootedVersion | accounts-db/src/accounts_index.rs:1496-1531 | once outdated versions are reclaimed, every key looked at has one rooted version up to the clean root |
| CleanPurge.FilterNeverSplitsStores | accounts-db/src/accounts_db.rs:2279-2303 | for every snapshot slot, what the filter leaves of clean's candidates can be purged together |
| CleanPurge.CanGoTogether | accounts-db/src/accounts_db.rs:1241-1339 | every group of zero-lamport keys with as many storages as references, whose storages hold entries of the group only, is among those clean finds |
| CleanPurge.CleanWaits | accounts-db/src/accounts_db.rs:2248-2303 | by the index before the clean: beyond the latest full snapshot, exactly the keys whose newest rooted version is above it wait, each kept for later with that version; otherwise none waits |
| CleanPurge.CollectCandidates | accounts-db/src/accounts_db.rs:1770-1860 | the candidates are exactly the keys whose newest rooted version up to the clean root is zero-lamport, each with its rooted slots and reference count |
| CleanTheorems.CleanIsRun | accounts-db/src/accounts_db.rs:1723-2021 | a whole clean, for every latest full snapshot, is two operations of a run, and keeps the invariant |
| CleanTheorems.CleanIsInvisible | accounts-db/src/accounts_db.rs:1723-2021 | a whole clean, filtered or not, changes no load at or above the clean root |
| CleanTheorems.CleanRebuilds | accounts-db/src/accounts_db.rs:1906-2021 | when each key's newest record is indexed, a clean leaves what a rebuild from the storages gives for every key |
| CleanTheorems.CleanDoesNotResurrect | accounts-db/src/accounts_db.rs:1906-2021 | after every run whose cleans come when the roots up to them are flushed, rebuilding from the storages before and after a clean, filtered or not, gives every key the same newest non-zero account or none; newer roots may still be in the cache |
| IncrementalSnapshot.CleanSparesIncrement | accounts-db/src/accounts_db.rs:2225-2303 | a clean that knows of a full snapshot purges no key with a version above it |
| IncrementalSnapshot.IncrementOfRuns | accounts-db/src/accounts_db.rs:2225-2303 | in every run after a full snapshot whose purges spare such keys, the newest flushed write of each key above the snapshot keeps its record |
| IncrementalSnapshot.RestartFromIncrement | accounts-db/src/accounts_db.rs:2225-2303 | a restart from the storages of a full snapshot and those above it now returns every key's newest rooted write, or nothing if it is zero-lamport, so no purged account comes back |
| DatabaseProof.StoreAccountsKeeps | accounts-db/src/accounts_db.rs:5328-5386 | storing into an unrooted slot keeps the database invariant |
| DatabaseProof.AddRootKeeps | accounts-db/src/accounts_db.rs:5756-5770 | rooting a slot keeps the invariant: its writes become the newest rooted ones |
| DatabaseProof.PurgeSlotKeeps | accounts-db/src/accounts_db.rs:4076-4123 | purging an unrooted slot keeps the invariant |
| DatabaseProof.CleanOlderKeeps | accounts-db/src/accounts_db.rs:1216-1239 | cleaning outdated versions keeps the invariant |
| DatabaseProof.PurgedEverywhere | accounts-db/src/accounts_db.rs:2262-2278 | a purged key has no record in any remaining storage, because its slots are as many as its references |
| DatabaseProof.PurgeZeroKeeps | accounts-db/src/accounts_db.rs:1976-2021 | purging zero-lamport keys keeps the invariant |
| DatabaseProof.SingleRef | accounts-db/src/accounts_db.rs:2385-2405 | a zero-lamport record with one reference is the only record of its key |
| DatabaseProof.ShrinkKeeps | accounts-db/src/accounts_db.rs:2834-2936 | shrinking a storage keeps the invariant |
| DatabaseProof.FlushSupersedes | accounts-db/src/accounts_db.rs:4556-4590 | every version a flush does not write or takes out of the index is superseded by a newer rooted one that stays |
| DatabaseProof.FlushSlotKeeps | accounts-db/src/accounts_db.rs:4547-4664 | flushing one slot of a batch keeps everything but the order of flushes |
| DatabaseProof.FlushKeeps | accounts-db/src/accounts_db.rs:4486-4545 | flushing a whole batch, highest slot first, keeps the invariant |
| DatabaseTheorems.OperationKeeps | accounts-db/src/accounts_db.rs:4486-4664 | every operation keeps the invariant |
| DatabaseTheorems.InvariantOfRuns | accounts-db/src/accounts_db.rs:4486-4664 | the invariant holds after every run of operations from the empty database |
| DatabaseTheorems.LoadsTheNewestWrite | accounts-db/src/accounts_db.rs:3546-3555 | after every run a load returns the newest visible write of the history, or none if that is zero-lamport or absent |
| DatabaseTheorems.ShouldLoadOne | accounts-db/src/accounts_db.rs:3546-3555 | the history determines that answer |
| WriteLog.LogOfRuns | accounts-db/src/accounts_db.rs:5328-5386 | after every run the history holds exactly the last store into each slot that no purge of the slot followed, the roots are those rooted, and nothing was cleaned above the roots the operations name |
| WriteLog.LoadsByLamports | accounts-db/src/accounts_db.rs:3546-3555 | after every run a load returns the newest visible write if it has lamports, and nothing if it has none or there is no such write |
| WriteLog.LoadsTheLastStore | accounts-db/src/accounts_db.rs:3546-3555 | after every run a load returns the account of the last store into the newest ancestor or root up to the bound that the log of operations has for the key, if it has lamports, and nothing otherwise |
| WriteLog.OneAnswer | accounts-db/src/accounts_db.rs:3546-3555 | the log has exactly one answer |
| WriteLog.RebuildsByLamports | accounts-db/src/accounts_db.rs:5949-6170 | a rebuild takes the newest record that is not obsolete if it has lamports, and nothing otherwise |
| WriteLog.RestartsWithTheLastStore | accounts-db/src/accounts_db.rs:5949-6170 | a restart from the storages returns for every key what the log says of the roots up to the snapshot |
| DatabaseTheorems.BackgroundKeepsLoads | accounts-db/src/accounts_db.rs:4486-4664 | flush, clean, purge and shrink each leave every load at or above the cleaned root unchanged |
| DatabaseTheorems.RestartSeesTheSame | accounts-db/src/accounts_db.rs:5949-6170 | after every run with all roots flushed, a restart from the storages gives each key its newest rooted write |
| NewestRecords.OperationKeepsRecords | accounts-db/src/accounts_db.rs:4486-4664 | every operation keeps the newest record of each key, over all storages, in the index |
| NewestRecords.RecordsOfRuns | accounts-db/src/accounts_db.rs:5949-6170 | that holds after every run whose cleans come when the roots up to them are flushed |
| NewestRecords.FlushedRecordsIndexed | accounts-db/src/accounts_db.rs:5949-6170 | it holds after any run, whenever no root is in the cache |
| NewestRecords.SnapshotSeesTheSame | accounts-db/src/accounts_db.rs:5949-6170 | a restart from the storages taken while newer roots are in the cache gives each key its newest rooted write up to the snapshot, or none if that is zero-lamport or absent |
| DatabaseTheorems.CleanKeepsRefs | accounts-db/src/accounts_db.rs:5190-5324 | cleaning outdated versions keeps reference counts equal to the number of storages that hold the key |
| DatabaseTheorems.PurgeKeepsRefs | accounts-db/src/accounts_db.rs:2316-2366 | so does purging zero-lamport keys |
| DatabaseTheorems.ShrinkKeepsRefs | accounts-db/src/accounts_db.rs:2654-2683 | so does shrinking |
| FlushReferences.KillsExactly | accounts-db/src/accounts_db.rs:5055-5178 | the storages a flush removes, by the state before it: those whose alive keys are all written |
| FlushReferences.FlushKeepsRef | accounts-db/src/accounts_db.rs:4942-5053 | the flush of one slot keeps a key's count exact if and only if it removes no storage with an outdated record of the key |
| FlushReferences.FlushKeepsRefs | accounts-db/src/accounts_db.rs:4486-4545 | the same for a whole flush, by the state before it |
| FlushReferences.SurplusStays | accounts-db/src/accounts_db.rs:2211-2221 | a count that is too high stays too high through a flush |
| StrandedReference.FlushMayLeaveReference | accounts-db/src/accounts_db.rs:2211-2221 | a run from the empty database after which all counts are exact and the next flush leaves one too high |
| DatabaseTheorems.FlushWritesOnce | accounts-db/src/accounts_db.rs:4486-4545 | a batch writes exactly one version of each key among the slots it cleans and every version above them |
| SlotList.UpdateSlotList | accounts-db/src/accounts_index/in_mem_accounts_index.rs:587-657 | the list after an upsert, the reclaimed versions, and a reference count change equal to the change in the number of stored versions |
| SlotList.ReplaceCount | accounts-db/src/accounts_index/in_mem_accounts_index.rs:600-650 | how the number of stored versions changes in the pass over the list |
| SlotList.LatestSlot | accounts-db/src/accounts_index.rs:987-1024 | finds the greatest slot that is an ancestor or a root within the bound, or nothing exactly when there is none |
| IndexEntry.UpsertWritten | accounts-db/src/accounts_index/in_mem_accounts_index.rs:587-657 | the upsert on one key's list changes list, reclaims and reference count as the whole-index model of a flush does |
| AccountsDatabase.ChooseWrites | accounts-db/src/accounts_db.rs:4556-4590 | the accounts to write and to drop, and the keys the batch has written afterwards |
| AccountsDatabase.PurgeCachedKeys | accounts-db/src/accounts_db.rs:4202-4283 | the index without the dropped cached versions |
| AccountsDatabase.UpsertKeys | accounts-db/src/accounts_db.rs:4942-5053 | index, reference counts and reclaims after the keys are upserted one by one, independent of their order |
| AccountsDatabase.RemoveDeadAccounts | accounts-db/src/accounts_db.rs:5055-5178 | lowering the counters finds a storage dead exactly when a reclaim took its last index entry; the counters stay exact and the other storages get their obsolete marks |
| AccountsDatabase.UnrefPubkeys | accounts-db/src/accounts_db.rs:5190-5257 | each key loses one reference per dead storage that held it, unless it left the index |
| AccountsDatabase.CollectOlder | accounts-db/src/accounts_index.rs:1496-1565 | the reclaims of a clean are exactly the stored versions older than the newest rooted one |
| AccountsDatabase.ShrinkCollect | accounts-db/src/accounts_db.rs:2368-2462 | the records that are not obsolete split into three disjoint groups: alive, to unref, and alive zero-lamport ones with one reference in slots up to the latest full snapshot |
| AccountsDatabase.FlushAccounts | accounts-db/src/accounts_db.rs:4547-4664 | the two index passes, the new storage, the reclaims and the dropped cache together have the effect of one flush |
| AccountsDatabase.AccountsDb.constructor | accounts-db/src/accounts_db.rs:1034-1140 | an empty database |
| AccountsDatabase.AccountsDb.StoreAccountsUnfrozen | accounts-db/src/accounts_db.rs:5328-5386 | exactly the accounts of the batch are added to or replaced in the slot's cache and indexed there; all else and the invariant are kept |
| AccountsDatabase.AccountsDb.AddRootSlot | accounts-db/src/accounts_db.rs:5756-5770 | the slot joins the roots; all else and the invariant are kept |
| AccountsDatabase.AccountsDb.HandleReclaims | accounts-db/src/accounts_db.rs:2190-2246 | exactly the given entries leave the index, and exactly the storages left without entries go, with their roots and references |
| AccountsDatabase.AccountsDb.CleanAccountsOlderThanRoot | accounts-db/src/accounts_db.rs:1187-1239 | exactly the stored versions of the keys below the clean root that a newer rooted one replaces go, with the storages they leave empty; the invariant is kept |
| AccountsDatabase.AccountsDb.PurgeKeys | accounts-db/src/accounts_db.rs:1342-1380 | the keys lose every rooted entry up to the clean root and the storages that held them; the invariant is kept |
| AccountsDatabase.AccountsDb.CleanAccounts | accounts-db/src/accounts_db.rs:1723-2021 | scan, reclaim, worklist, filter and purge end to end: exactly the greatest purgeable set is purged or kept for later, and a key waits exactly when its newest version is above the latest full snapshot and the clean goes beyond it; the invariant and the counters are kept |
| AccountsDatabase.AccountsDb.ShrinkStorage | accounts-db/src/accounts_db.rs:2834-2936 | the storage holds exactly its alive accounts less the single-reference zero-lamport ones of slots up to the latest full snapshot; exactly the records that go lose a reference, the entries of the dropped ones go, and all else and the invariant are kept |
| AccountsDatabase.AccountsDb.FlushSlotCache | accounts-db/src/accounts_db.rs:4669-4679 | the accounts that reach the storage, the entries that move to it, and the older ones that go |
| AccountsDatabase.AccountsDb.FlushRootedAccountsCache | accounts-db/src/accounts_db.rs:4518-4545 | every cached root up to the bound leaves the cache; a version reaches its storage unless its slot is cleaned and a newer version of the batch is written; stored versions go exactly when the flush marks and writes a newer one; the invariant is kept |
| OperationEffects.StoreEffect | accounts-db/src/accounts_db.rs:5328-5386 | a store adds or replaces exactly its accounts in the slot's cache and points their entries there |
| OperationEffects.ReclaimEffect | accounts-db/src/accounts_db.rs:2190-2246 | exactly the given entries go, and exactly the storages that lose their last entry, with their roots |
| OperationEffects.ReclaimRefs | accounts-db/src/accounts_db.rs:5190-5257 | a key loses one reference per removed storage with a record of it that is not obsolete |
| OperationEffects.CleanOlderEffect | accounts-db/src/accounts_db.rs:1216-1239 | of the stored versions below the clean root, exactly those with a newer rooted one up to it, or of no root, go |
| OperationEffects.PurgeZeroEffect | accounts-db/src/accounts_db.rs:1976-2021 | the keys lose every rooted entry up to the clean root, and the storages of those entries go |
| OperationEffects.ShrinkEffect | accounts-db/src/accounts_db.rs:2834-2936 | the storage keeps exactly its alive accounts less the dropped ones, and exactly the records that go lose a reference |
| OperationEffects.FlushSlotEffect | accounts-db/src/accounts_db.rs:4547-4664 | which cached accounts of one slot reach its storage, and which entries move or go |
| OperationEffects.FlushMarks | accounts-db/src/accounts_db.rs:5105-5142 | in the storages that stay, exactly the reclaimed versions are marked obsolete |
| OperationEffects.FlushEffect | accounts-db/src/accounts_db.rs:4486-4545 | the same for a whole flush, by the cache and index before it |
| StorageAccounting.SumSizes | accounts-db/src/accounts_db.rs:5112-5117 | the dead bytes are the total stored size, in any order |
| StorageAccounting.AccountStorageEntry.constructor | accounts-db/src/accounts_db.rs:5582-5625 | a written storage counts all its records and their bytes |
| StorageAccounting.AccountStorageEntry.RemoveAccounts | accounts-db/src/account_storage_entry.rs:227-243 | both counters go down and the rest is returned, given what the source asserts |
| StorageAccounting.AccountStorageEntry.Mark | accounts-db/src/obsolete_accounts.rs:20-35 | exactly the new offsets are appended with the slot; no account is marked twice or while alive |
| StorageAccounting.AccountStorageEntry.RemoveDead | accounts-db/src/accounts_db.rs:5105-5142 | both ways of removing leave counters that are exact for what is left |
| StorageAccounting.AccountStorage.StoreAccountsFrozen | accounts-db/src/accounts_db.rs:5405-5481 | a new storage of a slot, flushed or shrunk, keeps all counters exact |
| StorageAccounting.AccountStorage.RemoveDeadAccounts | accounts-db/src/accounts_db.rs:5055-5178 | all counters stay exact and a slot is reported dead exactly when it lost an entry and no index entry refers to it |
| StorageAccounting.AccountStorage.LowerCounters | accounts-db/src/accounts_db.rs:5089-5155 | working through the slots in any order keeps every storage exact |
| StorageAccounting.AccountStorage.RemoveDeadSlots | accounts-db/src/accounts_db.rs:4135-4195 | dropping unreferenced storages keeps the rest exact |
| StorageReader.RemainingIsAlive | accounts-db/src/account_storage_reader.rs:72-122 | what the cursor still has to deliver is the file without the bytes that a range covers |
| StorageReader.RemainingLength | accounts-db/src/account_storage_reader.rs:27-60 | its length is the file's less the obsolete bytes |
| StorageReader.SortObsolete | accounts-db/src/account_storage_entry.rs:143-154 | sorting the ranges leaves the number of obsolete bytes unchanged |
| StorageReader.AccountStorageReader.constructor | accounts-db/src/account_storage_reader.rs:27-60 | the reader starts with all alive bytes left, and as many as its length says |
| StorageReader.AccountStorageReader.Read | accounts-db/src/account_storage_reader.rs:72-122 | a buffer gets the next alive bytes, as many as fit or are left, and the rest of it is untouched |
| StorageReader.ReadBuffers | accounts-db/src/account_storage_reader.rs:72-122 | for every sequence of buffer sizes the concatenated output is a prefix of the alive bytes of the right length |
| SortDedup.SortIsStable | accounts-db/src/accounts_db.rs:2503-2510 | sorted by key, with the records of each key in their order |
| SortDedup.DedupKeepsLast | accounts-db/src/accounts_db.rs:2510-2526 | the pass keeps the last record of each key |
| SortDedup.RemoveDups | accounts-db/src/accounts_db.rs:2510-2526 | the in-place pass leaves the deduplicated records at the front |
| SortDedup.SortAndRemoveDups | accounts-db/src/accounts_db.rs:2503-2526 | the remaining records are exactly those after which their key does not occur, by ascending key, and the rest are counted |
| AccountLocks.StrictSuccessIsRelaxed | accounts-db/src/account_locks.rs:24-61 | on every batch, what the strict path lets in, the relaxed path lets in |
| AccountLocks.CountsDetermine | accounts-db/src/account_locks.rs:12-20 | the two maps are determined by the locks held |
| AccountLocks.LockTable.CanLockAccounts | accounts-db/src/account_locks.rs:73-88 | true exactly when no held lock on one of the keys is for writing or wanted for writing |
| AccountLocks.LockTable.LockAccounts | accounts-db/src/account_locks.rs:90-99 | the locks are added and the maps count them |
| AccountLocks.LockTable.UnlockAccounts | accounts-db/src/account_locks.rs:63-71 | the locks are given back and no zero entry stays |
| AccountLocks.LockTable.TryLockAccounts | accounts-db/src/account_locks.rs:24-37 | all locks or none: success exactly when every key held in common is only read on both sides, else AccountInUse |
| AccountLocks.LockTable.TryLockEach | accounts-db/src/accounts.rs:497-529 | the strict path: a transaction succeeds exactly when it conflicts with no held lock and with no earlier success of the batch; an earlier error is returned as it is |
| AccountLocks.LockTable.TryLockTransactionBatch | accounts-db/src/account_locks.rs:39-61 | the relaxed path: a transaction succeeds exactly when it conflicts with no lock held before the batch; an earlier error is returned as it is |
| AccountLocks.LockTable.UnlockBatch | accounts-db/src/accounts.rs:531-547 | unlocking the successes gives back exactly what they took |
| AccountLocks.LockTable.LockThenUnlock | accounts-db/src/accounts.rs:497-547 | locking a batch and unlocking its successes restores both maps |
| AccountLocks.HasDuplicates | accounts-db/src/account_locks.rs:178-199 | both ways of searching find a duplicate exactly when there is one |
| AccountLocks.ValidateAccountLocks | accounts-db/src/account_locks.rs:160-175 | the errors in their order |
| AccountLocks.RunsKeepApart | accounts-db/src/accounts.rs:497-547 | in every run of lock and unlock calls, transactions of different calls, or of one strict call, do not conflict |
| AccountLocks.StrictExactly | accounts-db/src/accounts.rs:497-529 | the result of each position of a strict batch, in terms of conflicts |
| AccountLocks.RelaxedExactly | accounts-db/src/account_locks.rs:39-61 | the result of each position of a relaxed batch, in terms of conflicts |
| AccountLocks.RunsShareReads | accounts-db/src/accounts.rs:497-547 | in every run such transactions have a key in common only if both read it |
| BlockhashQueue.FewEntries | accounts-db/src/blockhash_queue.rs:111-129 | entries from the last n registrations are at most n |
| BlockhashQueue.Queue.constructor | accounts-db/src/blockhash_queue.rs:56-63 | an empty queue |
| BlockhashQueue.Queue.GenesisHash | accounts-db/src/blockhash_queue.rs:94-105 | the hash gets index 0 and becomes the last one; before any registration it starts the history and keeps the queue valid |
| BlockhashQueue.Queue.RegisterHash | accounts-db/src/blockhash_queue.rs:111-129 | the history grows by one, and the queue keeps at most max_age + 1 hashes, the recent ones |
| BlockhashQueue.Queue.GetHashInfoIfValid | accounts-db/src/blockhash_queue.rs:82-86 | for every age up to the queue's, a hash is valid exactly when its latest registration in the full history is among the last age + 1 |
| BlockhashQueue.Queue.GetHashAge | accounts-db/src/blockhash_queue.rs:88-92 | the registrations since the latest one of the hash, without underflow |
| ShrinkCandidates.SavedIsBounded | accounts-db/src/accounts_db.rs:3060-3131 | the bytes saved never exceed the total, so the subtraction does not underflow |
| ShrinkCandidates.SelectFromSorted | accounts-db/src/accounts_db.rs:3090-3125 | the shortest prefix whose shrinking brings the alive bytes above the target share of the total, and despite the early break exactly the later stores below the target |
| ShrinkCandidates.SelectCandidates | accounts-db/src/accounts_db.rs:3060-3131 | the same for the storages of the slots, sparsest first by alive bytes against capacity |
| CrateOrder.FindDirectCycle | ci/order-crates-for-publishing.py:110-115 | reports exactly when two packages, or one with itself, depend on each other |
| CrateOrder.Pass | ci/order-crates-for-publishing.py:140-150 | one pass takes exactly the packages whose dependencies are gone, and keeps dependencies first |
| CrateOrder.StuckHasCycle | ci/order-crates-for-publishing.py:129-138 | packages that all depend on one another's remainder contain a cycle of any length |
| CrateOrder.BudgetIsGone | ci/order-crates-for-publishing.py:129-138 | when n squared passes do not suffice the graph has a cycle |
| CrateOrder.OrderedIsAcyclic | ci/order-crates-for-publishing.py:129-152 | a graph that can be ordered has no cycle |
| CrateOrder.OrderCrates | ci/order-crates-for-publishing.py:95-152 | an order is returned exactly for acyclic graphs, and it is a permutation of the packages with dependencies first |
| LargestAccounts.TopIsUnique | accounts-db/src/accounts.rs:254-307 | the top entries are a unique set |
| LargestAccounts.AnyScanOrder | accounts-db/src/accounts.rs:254-307 | every scan order gives the same list |
| LargestAccounts.LoadLargestAccounts | accounts-db/src/accounts.rs:254-307 | at most `num` accounts that have lamports and pass the filter, in descending order of lamports and key; an account that passes is left out only if there are `num` larger ones |
| StorageOrderer.SelectCounts | accounts-db/src/account_storage.rs:474-491 | the closed form of the index selection counts the earlier selections from each end |
| StorageOrderer.SelectInRange | accounts-db/src/account_storage.rs:474-491 | the selection stays in range, and each end stays on its side |
| StorageOrderer.SelectIsInjective | accounts-db/src/account_storage.rs:474-491 | no index is selected twice, for every length and rates |
| StorageOrderer.WithSmallToLargeRatio | accounts-db/src/account_storage.rs:337-351 | the indices are a permutation |
| StorageOrderer.InterleavesExactly | accounts-db/src/account_storage.rs:333-347 | small and large storages alternate as documented for all capacities of n storages, at s small for e large, if and only if e is 0, n is at most s + 1, or n is at most 2 |
| StorageOrderer.SortedInterleaves | accounts-db/src/account_storage.rs:333-347 | storages that come sorted by capacity are interleaved as documented |
| StorageOrderer.MayNotInterleave | accounts-db/src/account_storage.rs:333-347 | three storages that are not |
| StorageOrderer.Consumer.TakeNext | accounts-db/src/account_storage.rs:425-439 | each call takes the next position |
| StorageOrderer.EachStorageOnce | accounts-db/src/account_storage.rs:425-439 | any interleaving of calls gives every storage to exactly one caller |
| ZeroLamportElision.WriteAccountsToCache | accounts-db/src/accounts_db.rs:5520-5580 | walking the batch backwards writes exactly the last entry of each key, unless it is zero-lamport and, with ancestors, the key has no visible version or a zero-lamport newest one, or, without ancestors, the key is not in the index at all |
| ZeroLamportElision.UpdateIndexCachedAccounts | accounts-db/src/accounts_db.rs:4887-4936 | for every chunk size exactly the written entries are indexed |
| ZeroLamportElision.StoredIsLoaded | accounts-db/src/accounts_db.rs:3546-3555 | a written entry loads as itself, or as none if zero-lamport |
| ZeroLamportElision.ElidedIsAbsent | accounts-db/src/accounts_db.rs:5520-5580 | an elided entry loads as none, as if it had been written |
| ZeroLamportElision.ElidedExactly | accounts-db/src/accounts_db.rs:5520-5580 | a write is left out exactly when it is zero-lamport and the key loads as nothing on the fork, or without ancestors is not in the index |
| ZeroLamportElision.LoadsByLamports | accounts-db/src/accounts_db.rs:3546-3555 | what a load returns, by slots and lamports |
| ZeroLamportElision.StoreBatch | accounts-db/src/accounts_db.rs:5520-5580 | after a batch each of its keys loads as its last entry, and every other key as before |
| Startup.SumPermuted | accounts-db/src/accounts_db.rs:443-460 | a sum in an abelian group does not depend on the order |
| Startup.SumParts | accounts-db/src/accounts_db.rs:5797-5947 | totals per thread add up to the total over all records |
| Startup.VisitDuplicates | accounts-db/src/accounts_db.rs:6336-6394 | the total over exactly the versions of the keys that have a newer one, in any order |
| Startup.VisitChunks | accounts-db/src/accounts_db.rs:6172-6208 | for every chunking, the duplicates' total is that of exactly the versions with a newer one |
| Startup.NewestRemain | accounts-db/src/accounts_db.rs:6211-6219 | all versions less the duplicates are the newest versions |
| Startup.OneNewest | accounts-db/src/accounts_db.rs:6336-6394 | every key has exactly one newest version, above all its others |
| Startup.OlderHaveNewer | accounts-db/src/accounts_db.rs:6336-6394 | the duplicates are exactly the versions with a newer one |
| StartupRebuild.CapitalizationIsRebuilt | accounts-db/src/accounts_db.rs:6211-6219 | the lamports of the newest versions are those of the accounts that a rebuild from the storages returns |
| StartupRebuild.KeysOfRebuild | accounts-db/src/accounts_db.rs:6211-6219 | they are taken over exactly the keys with a record, once each |
| Startup.GenerateIndex | accounts-db/src/accounts_db.rs:4719-4828 | for every split over threads and chunks, the startup total is the sum over the version with the highest slot of each key |
| Startup.CapitalizationDoesNotUnderflow | accounts-db/src/accounts_db.rs:6211-6218 | the duplicates' lamports never exceed the total |

## Left out

- Real file I/O, mmap, hashing, thread pools, memory ordering of atomics, metrics and timing.
- The read-only accounts cache, which `do_load` may answer from before the index.
- Secondary indexes, index bins and the disk part of the index.
- Ancient slot packing, snapshots, and the heuristics that decide whether a shrink is worthwhile.
- `exhaustively_verify_refcounts`, a debugging aid.
- The error for wrong development dependencies in the crate-ordering script.
- `AccountsCache`'s size counters and metrics; its slots, roots and contents are part of `Database`.
- LoadTheorems.CountsAreExact: counts accounts, not bytes; the bytes are in `StorageAccounting`. The storage being replaced by a shrink keeps its old count, which is not stated.
- CleanPurge.CollectCandidates: takes the keys to look at as given; how the dirty keys are found is not modelled.
- StorageReader.AccountStorageReader.Read: file errors are not modelled; short reads are.
- ShrinkCandidates.SelectCandidates: exact reals in place of f64, and positive capacities.
- BlockhashQueue.Queue.GenesisHash: for a call after registrations only the new fields are stated, not what the queries then mean.
- LargestAccounts.LoadLargestAccounts: the scan lists each account once.
