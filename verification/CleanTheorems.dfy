/**
 What a whole clean leaves as it was: every load, and what a restart from the storages sees.
 */
module CleanTheorems {
  import opened Types
  import opened Database
  import opened DatabaseInvariant
  import opened DatabaseProof
  import opened DatabaseTheorems
  import CleanDependencies
  import CleanPurge
  import opened NewestRecords

  /** The zero-lamport keys found can be purged, so clean is two operations of a run. */
  lemma CleanIsRun(db: Db, keys: set<Pubkey>, bound: Slot, snapshot: Option<Slot>, purge: set<Pubkey>, db': Db)
    requires Inv(db) && CleanPurge.Flushed(db.cache, db.ever, bound) &&
      CleanPurge.IsCleaned(db, keys, bound, snapshot, purge, db')
    ensures var older := CleanOlder(db, keys, bound);
      Inv(older) && Can(older, OpPurgeZero(purge, bound)) && db' == Apply(older, OpPurgeZero(purge, bound)) && Inv(db')
  {
    var older := CleanOlder(db, keys, bound);
    CleanOlderKeeps(db, keys, bound);
    hide CleanOlder, CanPurgeZero, PurgeZero, CleanPurge.CandidatesOf, AliveCounts, CleanPurge.ZeroKeys;
    hide CleanDependencies.IsPurge;
    var zero := CleanPurge.ZeroKeys(older, keys, bound);
    CleanPurge.OneVersionEach(db, keys, bound);
    CleanDependencies.PurgeIsClosed(CleanPurge.CandidatesOf(older, zero, bound), AliveCounts(older.index, older.stores),
      bound, snapshot, purge);
    assert CleanPurge.Flushed(older.cache, older.ever, bound) by { CleanSparesCache(db, keys, bound); }
    CleanPurge.ZeroKeysAreCandidates(older, keys, bound);
    CleanPurge.ClosedCanBePurged(older, zero, bound, purge);
    PurgeZeroKeeps(older, purge, bound);
  }

  lemma CleanSparesCache(db: Db, keys: set<Pubkey>, bound: Slot)
    ensures var older := CleanOlder(db, keys, bound);
      older.cache == db.cache && older.ever == db.ever && older.history == db.history &&
        older.cleaned == Max(db.cleaned, bound)
  {}

  lemma PurgeSparesCache(db: Db, keys: set<Pubkey>, bound: Slot)
    ensures var db' := PurgeZero(db, keys, bound);
      db'.cache == db.cache && db'.ever == db.ever && db'.history == db.history && db'.cleaned == Max(db.cleaned, bound)
  {}

  /** A clean changes no load at or above the clean root. */
  lemma CleanIsInvisible(db: Db, keys: set<Pubkey>, bound: Slot, snapshot: Option<Slot>, purge: set<Pubkey>, db': Db,
                         ancestors: set<Slot>, loadBound: Slot, k: Pubkey, r: Option<Account>)
    requires Inv(db) && CleanPurge.Flushed(db.cache, db.ever, bound) &&
      CleanPurge.IsCleaned(db, keys, bound, snapshot, purge, db')
    requires OnFork(db.ever, ancestors, loadBound) && db.cleaned <= loadBound && bound <= loadBound
    ensures Loads(db, ancestors, loadBound, k, r) <==> Loads(db', ancestors, loadBound, k, r)
  {
    var older := CleanOlder(db, keys, bound);
    CleanIsRun(db, keys, bound, snapshot, purge, db');
    CleanSparesCache(db, keys, bound);
    PurgeSparesCache(older, purge, bound);
    hide CleanOlder, CanPurgeZero, PurgeZero, Inv, Loads, CleanPurge.IsCleaned;
    BackgroundKeepsLoads(db, OpCleanOlder(keys, bound), ancestors, loadBound, k, r);
    BackgroundKeepsLoads(older, OpPurgeZero(purge, bound), ancestors, loadBound, k, r);
  }

  /** Fewer storages rebuild the same if the newest record stays, or all of a zero-lamport key's records go. */
  lemma RebuildStays(stores: Stores, stores': Stores, k: Pubkey, r: Option<Account>)
    requires Rebuilds(stores, k, r) && forall x: Slot | HoldsKey(stores', x, k) :: HoldsKey(stores, x, k)
    requires forall n: Slot | IsNewestRecord(stores, k, n) ::
      || (n in stores' && stores'[n] == stores[n])
      || ((forall x: Slot :: !HoldsKey(stores', x, k)) && stores[n].accounts[k].IsZeroLamport())
    ensures Rebuilds(stores', k, r)
  {
    if n :| IsNewestRecord(stores, k, n) && r == NonZero(stores[n].accounts[k]) {
      assert n in stores' && stores'[n] == stores[n] ==> IsNewestRecord(stores', k, n);
    }
  }

  lemma FewerStores(db: Db, gone: set<Pair>, removed: set<Pubkey>, k: Pubkey, x: Slot)
    ensures HoldsKey(Reclaim(db, gone, removed).stores, x, k) ==> HoldsKey(db.stores, x, k)
  {}

  /** Dropping outdated versions leaves the newest record of every key as it was. */
  lemma CleanOlderRebuilds(db: Db, keys: set<Pubkey>, bound: Slot, k: Pubkey, r: Option<Account>)
    requires Core(db) && NewestRecordsIndexed(db.index, db.stores) && CleanPurge.Flushed(db.cache, db.ever, bound)
    requires Rebuilds(db.stores, k, r)
    ensures Rebuilds(CleanOlder(db, keys, bound).stores, k, r)
  {
    var db' := CleanOlder(db, keys, bound);
    forall x: Slot | HoldsKey(db'.stores, x, k) ensures HoldsKey(db.stores, x, k) {
      FewerStores(db, Older(db.index, db.roots, keys, bound), {}, k, x);
    }
    hide CleanOlder, Rebuilds, IsNewestRecord;
    forall n: Slot | IsNewestRecord(db.stores, k, n) ensures n in db'.stores && db'.stores[n] == db.stores[n] {
      CleanSparesNewest(db, keys, bound, k, n);
    }
    RebuildStays(db.stores, db'.stores, k, r);
  }

  /** Purging zero-lamport keys leaves every key its newest record, or none in place of a zero-lamport one. */
  lemma PurgeZeroRebuilds(db: Db, keys: set<Pubkey>, bound: Slot, k: Pubkey, r: Option<Account>)
    requires Core(db) && NewestRecordsIndexed(db.index, db.stores) && CanPurgeZero(db, keys, bound)
    requires Rebuilds(db.stores, k, r)
    ensures Rebuilds(PurgeZero(db, keys, bound).stores, k, r)
  {
    var db' := PurgeZero(db, keys, bound);
    forall x: Slot | HoldsKey(db'.stores, x, k) ensures HoldsKey(db.stores, x, k) {
      var gone := RootedUpTo(db.index, db.roots, keys, bound);
      FewerStores(db, gone, Removed(db.index, gone, keys), k, x);
    }
    hide PurgeZero, CanPurgeZero, Rebuilds, Core;
    forall n: Slot | IsNewestRecord(db.stores, k, n)
      ensures || (n in db'.stores && db'.stores[n] == db.stores[n])
              || ((forall x: Slot :: !HoldsKey(db'.stores, x, k)) && db.stores[n].accounts[k].IsZeroLamport())
    {
      PurgeSparesNewest(db, keys, bound, k, n);
    }
    hide HoldsKey, IsNewestRecord;
    RebuildStays(db.stores, db'.stores, k, r);
  }

  lemma RebuildsOne(stores: Stores, k: Pubkey, r: Option<Account>, r': Option<Account>)
    requires Rebuilds(stores, k, r) && Rebuilds(stores, k, r')
    ensures r == r'
  {}

  /** A clean of a database whose newest records are indexed leaves what a rebuild sees. */
  lemma CleanRebuilds(db: Db, keys: set<Pubkey>, bound: Slot, snapshot: Option<Slot>, purge: set<Pubkey>, db': Db,
                      k: Pubkey, r: Option<Account>)
    requires Inv(db) && NewestRecordsIndexed(db.index, db.stores) && CleanPurge.Flushed(db.cache, db.ever, bound)
    requires CleanPurge.IsCleaned(db, keys, bound, snapshot, purge, db') && Rebuilds(db.stores, k, r)
    ensures Rebuilds(db'.stores, k, r)
  {
    var older := CleanOlder(db, keys, bound);
    hide CleanOlder, CanPurgeZero, PurgeZero, Rebuilds, CleanPurge.IsCleaned, CleanPurge.Flushed, NewestRecordsIndexed,
      Core;
    CleanIsRun(db, keys, bound, snapshot, purge, db');
    CleanOlderRecords(db, keys, bound);
    CleanOlderRebuilds(db, keys, bound, k, r);
    PurgeZeroRebuilds(older, purge, bound, k, r);
  }

  /** A clean resurrects nothing: after every run, while newer roots may be in the cache, rebuilding from the storages
      gives each key the same newest non-zero account, or none, before and after the clean. */
  lemma CleanDoesNotResurrect(dbs: seq<Db>, ops: seq<Op>, i: nat, keys: set<Pubkey>, bound: Slot,
                              snapshot: Option<Slot>,
                              purge: set<Pubkey>, db': Db, k: Pubkey, r: Option<Account>, r': Option<Account>)
    requires IsTimelyRun(dbs, ops) && i < |dbs| && CleanPurge.Flushed(dbs[i].cache, dbs[i].ever, bound)
    requires CleanPurge.IsCleaned(dbs[i], keys, bound, snapshot, purge, db')
    requires Rebuilds(dbs[i].stores, k, r) && Rebuilds(db'.stores, k, r')
    ensures r == r'
  {
    RecordsOfRuns(dbs, ops, i);
    hide CleanPurge.IsCleaned, CleanPurge.Flushed, Inv, NewestRecordsIndexed, Rebuilds;
    CleanRebuilds(dbs[i], keys, bound, snapshot, purge, db', k, r);
    RebuildsOne(db'.stores, k, r, r');
  }
}
