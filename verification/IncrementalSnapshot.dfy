/**
 What the incremental-snapshot filter is for. A restart takes the storages up to the full snapshot as they were when it
 was taken, and the newer ones as they are now. As long as no key with a version above the full snapshot is purged, the
 two together rebuild every key's newest rooted write, so no zero-lamport account comes back.
 */
module IncrementalSnapshot {
  import opened Types
  import Sets
  import opened Database
  import opened DatabaseInvariant
  import opened DatabaseProof
  import opened DatabaseTheorems
  import opened OperationEffects
  import opened NewestRecords
  import opened WriteLog
  import CleanDependencies
  import CleanPurge
  import opened CleanTheorems

  /** The storages of a full snapshot at `full` with those of an incremental one on top. */
  function Combined(base: Stores, now: Stores, full: Slot): Stores {
    (map x | x in base && x <= full :: base[x]) + (map x | x in now && x > full :: now[x])
  }

  /** The operation purges no key that has a version above the full snapshot. */
  ghost predicate SparesIncrement(db: Db, op: Op, full: Slot) {
    match op
    case OpPurgeZero(keys, bound) =>
      forall p | p in db.index && p.0 in keys && p.1 in db.roots && p.1 <= bound :: p.1 <= full
    case OpShrink(slot, zero) => slot > full ==> zero == {}
    case _ => true
  }

  /** The newest rooted write of the key that is out of the cache. */
  ghost predicate IsNewestFlushed(db: Db, k: Pubkey, m: Slot) {
    && m in db.ever && m !in db.cache && m in db.history && k in db.history[m]
    && forall x | x in db.ever && x !in db.cache && x in db.history && k in db.history[x] :: x <= m
  }

  /** Above the full snapshot, the newest flushed write of every key has its record. */
  ghost predicate IncrementHolds(db: Db, full: Slot) {
    forall k: Pubkey, m: Slot | m > full && IsNewestFlushed(db, k, m) :: HoldsKey(db.stores, m, k)
  }

  /** Such a record is the newest of the key, so it is indexed. */
  lemma FlushedIsRecord(db: Db, full: Slot, k: Pubkey, m: Slot)
    requires Core(db) && NewestRecordsIndexed(db.index, db.stores) && IncrementHolds(db, full)
    requires m > full && IsNewestFlushed(db, k, m)
    ensures IsNewestRecord(db.stores, k, m) && (k, m) in db.index && db.index[(k, m)].Stored?
  {
    forall x: Slot | HoldsKey(db.stores, x, k) ensures x <= m {}
  }

  lemma IndexedIsHeld(db: Db, k: Pubkey, m: Slot)
    requires Core(db) && (k, m) in db.index && m !in db.cache
    ensures HoldsKey(db.stores, m, k)
  {
    assert (k, m).1 == m && (k, m).0 == k;
  }

  // ---------------------------------------------------------------- every operation keeps it

  /** What matters of an operation: the entry of such a record stays. */
  lemma EntryStays(db: Db, op: Op, full: Slot, k: Pubkey, m: Slot)
    requires Inv(db) && NewestRecordsIndexed(db.index, db.stores) && Can(db, op) && Timely(db, op)
    requires SparesIncrement(db, op, full) && (op.OpCleanOlder? || op.OpPurgeZero? || op.OpShrink?)
    requires m > full && IsNewestRecord(db.stores, k, m) && (k, m) in db.index && db.index[(k, m)].Stored?
    ensures (k, m) in Apply(db, op).index
  {
    match op {
      case OpCleanOlder(keys, bound) => CleanSparesNewest(db, keys, bound, k, m);
      case OpPurgeZero(keys, bound) => PurgeZeroEffect(db, keys, bound); assert (k, m).1 == m && (k, m).0 == k;
      case OpShrink(slot, zero) => assert (k, m).1 == m;
    }
  }

  lemma BackgroundIncrement(db: Db, op: Op, full: Slot)
    requires Inv(db) && NewestRecordsIndexed(db.index, db.stores) && IncrementHolds(db, full)
    requires Can(db, op) && Timely(db, op) && SparesIncrement(db, op, full)
    requires op.OpCleanOlder? || op.OpPurgeZero? || op.OpShrink?
    ensures IncrementHolds(Apply(db, op), full)
  {
    var db' := Apply(db, op);
    OperationKeeps(db, op);
    SameWrites(db, op);
    assert db'.cache == db.cache;
    hide Apply, Can, Timely, SparesIncrement, NewestRecordsIndexed;
    forall k: Pubkey, m: Slot | m > full && IsNewestFlushed(db', k, m) ensures HoldsKey(db'.stores, m, k) {
      assert IsNewestFlushed(db, k, m);
      hide Core, IsNewestFlushed, IncrementHolds;
      FlushedIsRecord(db, full, k, m);
      EntryStays(db, op, full, k, m);
      IndexedIsHeld(db', k, m);
    }
  }

  lemma FlushIncrement(db: Db, op: Op, full: Slot)
    requires Inv(db) && NewestRecordsIndexed(db.index, db.stores) && IncrementHolds(db, full)
    requires op.OpFlush? && Can(db, op)
    ensures IncrementHolds(Apply(db, op), full)
  {
    var db' := Apply(db, op);
    OperationKeeps(db, op);
    SameWrites(db, op);
    forall k: Pubkey, m: Slot | m > full && IsNewestFlushed(db', k, m) ensures HoldsKey(db'.stores, m, k) {
      FlushedIsHeld(db, op, full, k, m);
    }
  }

  lemma FlushedIsHeld(db: Db, op: Op, full: Slot, k: Pubkey, m: Slot)
    requires Inv(db) && NewestRecordsIndexed(db.index, db.stores) && IncrementHolds(db, full)
    requires op.OpFlush? && Can(db, op) && Inv(Apply(db, op))
    requires Apply(db, op).history == db.history && Apply(db, op).ever == db.ever
    requires m > full && IsNewestFlushed(Apply(db, op), k, m)
    ensures HoldsKey(Apply(db, op).stores, m, k)
  {
    var db' := Apply(db, op);
    var upTo, clean := op.upTo, op.clean;
    forall x: Slot ensures x in db'.cache <==> x in db.cache && !(x in db.ever && x <= upTo) {
      FlushedCache(db, op.slots, upTo, clean, op.mark, x);
    }
    assert db.cache.Keys <= db.history.Keys && forall x | x in db.cache :: db.history[x] == db.cache[x];
    assert !HasNewer(db.cache, db.ever, upTo, clean, m, k) by { hide FlushSlots; }
    if m in db.cache {
      FlushedVersion(db, op.slots, upTo, clean, op.mark, m, k);
    } else {
      assert IsNewestFlushed(db, k, m) by { hide FlushSlots; }
      FlushedIsRecord(db, full, k, m);
      FlushedEntry(db, op.slots, upTo, clean, op.mark, (k, m));
    }
    IndexedIsHeld(db', k, m);
  }

  lemma ForegroundIncrement(db: Db, op: Op, full: Slot)
    requires Inv(db) && IncrementHolds(db, full) && Can(db, op) && (op.OpStore? || op.OpRoot? || op.OpPurgeSlot?)
    ensures IncrementHolds(Apply(db, op), full)
  {
    var db' := Apply(db, op);
    forall k: Pubkey, m: Slot | m > full && IsNewestFlushed(db', k, m) ensures HoldsKey(db'.stores, m, k) {
      assert IsNewestFlushed(db, k, m);
    }
  }

  lemma OperationIncrement(db: Db, op: Op, full: Slot)
    requires Inv(db) && NewestRecordsIndexed(db.index, db.stores) && IncrementHolds(db, full)
    requires Can(db, op) && Timely(db, op) && SparesIncrement(db, op, full)
    ensures IncrementHolds(Apply(db, op), full)
  {
    hide Inv, NewestRecordsIndexed, IncrementHolds, Can, Apply, Timely, SparesIncrement;
    match op
    case OpStore(_, _) => ForegroundIncrement(db, op, full);
    case OpRoot(_) => ForegroundIncrement(db, op, full);
    case OpPurgeSlot(_) => ForegroundIncrement(db, op, full);
    case OpFlush(_, _, _, _) => FlushIncrement(db, op, full);
    case _ => BackgroundIncrement(db, op, full);
  }

  // ---------------------------------------------------------------- every run keeps it

  /** When the full snapshot is taken, nothing above it is flushed. */
  ghost predicate IsFullSnapshot(db: Db, full: Slot) {
    && full in db.ever && IsSnapshotBound(db, full)
    && forall x | x in db.ever && x > full && x in db.history :: x in db.cache
  }

  lemma NothingAbove(db: Db, full: Slot)
    requires IsFullSnapshot(db, full)
    ensures IncrementHolds(db, full)
  {}

  lemma {:induction false} IncrementOfRuns(dbs: seq<Db>, ops: seq<Op>, s: nat, n: nat, full: Slot)
    requires IsTimelyRun(dbs, ops) && s <= n < |dbs| && IsFullSnapshot(dbs[s], full)
    requires forall i | s <= i < n :: SparesIncrement(dbs[i], ops[i], full)
    ensures IncrementHolds(dbs[n], full)
    decreases n
  {
    hide Inv, NewestRecordsIndexed, IncrementHolds, Can, Apply, SparesIncrement, IsFullSnapshot;
    if n == s {
      NothingAbove(dbs[s], full);
    } else {
      IncrementOfRuns(dbs, ops, s, n - 1, full);
      RecordsOfRuns(dbs, ops, n - 1);
      assert dbs[n - 1 + 1] == Apply(dbs[n - 1], ops[n - 1]) && Timely(dbs[n - 1], ops[n - 1]);
      OperationIncrement(dbs[n - 1], ops[n - 1], full);
    }
  }

  /** The writes of the roots up to a root stay as they are. */
  ghost predicate SameUpTo(db: Db, db': Db, full: Slot) {
    && full in db'.ever
    && (forall x | x <= full :: x in db'.ever <==> x in db.ever)
    && (forall x, k | x in db.ever :: x in db'.history && k in db'.history[x] <==>
         x in db.history && k in db.history[x])
    && (forall x, k | x in db.ever && x in db.history && k in db.history[x] :: db'.history[x][k] == db.history[x][k])
    && (forall x | x in db.ever :: x in db'.ever)
  }

  lemma SameAsItself(db: Db, full: Slot)
    requires full in db.ever
    ensures SameUpTo(db, db, full)
  {}

  lemma {:induction false} WritesStay(dbs: seq<Db>, ops: seq<Op>, s: nat, n: nat, full: Slot)
    requires IsRun(dbs, ops) && s <= n < |dbs| && full in dbs[s].ever
    ensures SameUpTo(dbs[s], dbs[n], full)
    decreases n
  {
    hide Inv, Can, Apply, SameUpTo, HistoryNext;
    if n == s {
      SameAsItself(dbs[s], full);
    } else {
      WritesStay(dbs, ops, s, n - 1, full);
      InvariantOfRuns(dbs, ops, n - 1);
      assert dbs[n - 1 + 1] == Apply(dbs[n - 1], ops[n - 1]) && Can(dbs[n - 1], ops[n - 1]);
      OperationHistoryNext(dbs[n - 1], ops[n - 1]);
      UpToNext(dbs[s], dbs[n - 1], ops[n - 1], dbs[n], full);
    }
  }

  lemma UpToNext(db: Db, db1: Db, op: Op, db2: Db, full: Slot)
    requires SameUpTo(db, db1, full) && HistoryNext(db1, op, db2) && Can(db1, op)
    ensures SameUpTo(db, db2, full)
  {
    forall x, k | x in db.ever ensures !IsStoreOf(op, x, k) && !IsPurgeOf(op, x) {}
    hide CanPurgeZero, CanShrink, IsBatch;
  }

  // ---------------------------------------------------------------- the restart

  /** A write above the full snapshot: its newest flushed one is what the restart takes. */
  lemma RestartAbove(db: Db, base: Stores, full: Slot, bound: Slot, k: Pubkey, m: Slot, r: Option<Account>)
    requires StoresOk(db.stores, db.cache, db.ever, db.history) && IncrementHolds(db, full) &&
      IsSnapshotBound(db, bound)
    requires m > full && IsNewestFlushed(db, k, m) && Rebuilds(Combined(base, db.stores, full), k, r)
    ensures ShouldLoad(db.history, db.ever, {}, bound, k, r)
  {
    var stores := Combined(base, db.stores, full);
    NewestOnTop(db, base, full, k, m);
    hide Combined;
    assert IsLatestWrite(db.history, db.ever, {}, bound, k, m);
  }

  lemma NewestOnTop(db: Db, base: Stores, full: Slot, k: Pubkey, m: Slot)
    requires StoresOk(db.stores, db.cache, db.ever, db.history) && IncrementHolds(db, full)
    requires m > full && IsNewestFlushed(db, k, m)
    ensures var stores := Combined(base, db.stores, full);
      IsNewestRecord(stores, k, m) && stores[m].accounts[k] == db.history[m][k] && m in db.stores
  {
    var stores := Combined(base, db.stores, full);
    assert HoldsKey(db.stores, m, k);
    forall x: Slot | HoldsKey(stores, x, k) ensures x <= m { assert x > full ==> HoldsKey(db.stores, x, k); }
  }

  lemma HasNewestFlushed(db: Db, k: Pubkey, x: Slot) returns (m: Slot)
    requires x in db.ever && x !in db.cache && x in db.history && k in db.history[x]
    ensures IsNewestFlushed(db, k, m) && x <= m
  {
    var writes := set y | y in db.ever && y !in db.cache && y in db.history && k in db.history[y];
    assert x in writes;
    m := Sets.MaxOf(writes);
    forall y | y in db.ever && y !in db.cache && y in db.history && k in db.history[y]
      ensures y <= m { assert y in writes; }
  }

  /** No write above it: the restart takes what the full snapshot has. */
  lemma RestartBelow(base: Db, db: Db, full: Slot, bound: Slot, k: Pubkey, r: Option<Account>)
    requires Core(base) && NewestRecordsIndexed(base.index, base.stores) && IsFullSnapshot(base, full) && Core(db)
    requires SameUpTo(base, db, full) && full <= bound && IsSnapshotBound(db, bound)
    requires forall x | x in db.ever && x !in db.cache && x in db.history && k in db.history[x] :: x <= full
    requires Rebuilds(Combined(base.stores, db.stores, full), k, r)
    ensures ShouldLoad(db.history, db.ever, {}, bound, k, r)
  {
    OnlyBase(base, db, full, k, r);
    hide Combined, Rebuilds, ShouldLoad, SameUpTo, NewestRecordsIndexed, Core;
    SnapshotAgrees(base, full, k, r);
    SameAnswer(base, db, full, bound, k, r);
  }

  lemma OnlyBase(base: Db, db: Db, full: Slot, k: Pubkey, r: Option<Account>)
    requires StoresOk(db.stores, db.cache, db.ever, db.history) && forall x | x in base.stores :: x <= full
    requires forall x | x in db.ever && x !in db.cache && x in db.history && k in db.history[x] :: x <= full
    requires Rebuilds(Combined(base.stores, db.stores, full), k, r)
    ensures Rebuilds(base.stores, k, r)
  {
    var stores := Combined(base.stores, db.stores, full);
    forall x: Slot ensures HoldsKey(stores, x, k) <==> HoldsKey(base.stores, x, k) {
      assert x > full && x in db.stores && k in db.stores[x].accounts ==> x in db.ever && x !in db.cache;
    }
    if n :| IsNewestRecord(stores, k, n) && r == NonZero(stores[n].accounts[k]) {
      assert IsNewestRecord(base.stores, k, n);
    }
  }

  lemma SameAnswer(base: Db, db: Db, full: Slot, bound: Slot, k: Pubkey, r: Option<Account>)
    requires ShouldLoad(base.history, base.ever, {}, full, k, r) && SameUpTo(base, db, full) && full <= bound
    requires forall x | x in db.cache && x in db.ever :: x > bound
    requires forall x | x in db.ever && x !in db.cache && x in db.history && k in db.history[x] :: x <= full
    ensures ShouldLoad(db.history, db.ever, {}, bound, k, r)
  {
    forall x: Slot | x in db.history && k in db.history[x]
      ensures Visible(db.ever, {}, bound, x) <==> Visible(base.ever, {}, full, x) {}
    if x :| IsLatestWrite(base.history, base.ever, {}, full, k, x) && r == NonZero(base.history[x][k]) {
      assert IsLatestWrite(db.history, db.ever, {}, bound, k, x);
    }
  }

  /** A restart from a full snapshot and the storages above it gives every key its newest rooted write, or nothing if
      that is zero-lamport: nothing that was purged since the full snapshot comes back. */
  lemma RestartFromIncrement(dbs: seq<Db>, ops: seq<Op>, s: nat, n: nat, full: Slot, bound: Slot, k: Pubkey,
                             r: Option<Account>)
    requires IsTimelyRun(dbs, ops) && s <= n < |dbs| && IsFullSnapshot(dbs[s], full)
    requires forall i | s <= i < n :: SparesIncrement(dbs[i], ops[i], full)
    requires full <= bound && IsSnapshotBound(dbs[n], bound)
    requires Rebuilds(Combined(dbs[s].stores, dbs[n].stores, full), k, r)
    ensures ShouldLoad(dbs[n].history, dbs[n].ever, {}, bound, k, r)
    ensures IsAnswer(ops[..n], {}, bound, k, r)
  {
    var base, db := dbs[s], dbs[n];
    RecordsOfRuns(dbs, ops, s);
    RecordsOfRuns(dbs, ops, n);
    IncrementOfRuns(dbs, ops, s, n, full);
    WritesStay(dbs, ops, s, n, full);
    LogOfRuns(dbs, ops, n);
    hide IsTimelyRun, IncrementHolds, NewestRecordsIndexed, IsSnapshotBound, IsFullSnapshot, Rebuilds, Combined,
      ShouldLoad;
    hide SameUpTo, SparesIncrement, Logged, IsAnswer, Core;
    if x :| x in db.ever && x !in db.cache && x in db.history && k in db.history[x] && x > full {
      var m := HasNewestFlushed(db, k, x);
      RestartAbove(db, base.stores, full, bound, k, m, r);
    } else {
      RestartBelow(base, db, full, bound, k, r);
    }
    ShouldLoadIsAnswer(db, ops[..n], {}, bound, k, r);
  }

  /** A clean that knows of the full snapshot purges nothing that has a version above it. */
  lemma CleanSparesIncrement(db: Db, keys: set<Pubkey>, bound: Slot, full: Slot, purge: set<Pubkey>, db': Db)
    requires Inv(db) && CleanPurge.Flushed(db.cache, db.ever, bound)
    requires CleanPurge.IsCleaned(db, keys, bound, Some(full), purge, db')
    ensures SparesIncrement(CleanOlder(db, keys, bound), OpPurgeZero(purge, bound), full)
  {
    var older := CleanOlder(db, keys, bound);
    var zero := CleanPurge.ZeroKeys(older, keys, bound);
    hide Inv, CleanOlder, CleanPurge.ZeroKeys, CleanPurge.Flushed, PurgeZero, AliveCounts,
      CleanDependencies.GreatestClosed;
    var kept :| CleanDependencies.GreatestClosed(CleanPurge.CandidatesOf(older, zero, bound),
                  AliveCounts(older.index, older.stores), kept) &&
      purge == CleanDependencies.Filtered(CleanPurge.CandidatesOf(older, zero, bound), kept, bound, Some(full));
    KeptAreZero(older, zero, bound, kept);
    FilteredUpTo(older, zero, bound, full, kept);
  }

  lemma KeptAreZero(db: Db, zero: set<Pubkey>, bound: Slot, kept: set<Pubkey>)
    requires RefsCover(db.refs, db.stores)
    requires CleanDependencies.GreatestClosed(CleanPurge.CandidatesOf(db, zero, bound),
      AliveCounts(db.index, db.stores),
      kept)
    ensures kept <= zero
  {
    hide AliveCounts, RefsCover;
  }

  lemma FilteredUpTo(db: Db, zero: set<Pubkey>, bound: Slot, full: Slot, kept: set<Pubkey>)
    requires RefsCover(db.refs, db.stores) && kept <= zero
    ensures var purge := CleanDependencies.Filtered(CleanPurge.CandidatesOf(db, zero, bound), kept, bound, Some(full));
      forall p | p in db.index && p.0 in purge && p.1 in db.roots && p.1 <= bound :: p.1 <= full
  {
    var candidates := CleanPurge.CandidatesOf(db, zero, bound);
    var purge := CleanDependencies.Filtered(candidates, kept, bound, Some(full));
    forall p | p in db.index && p.0 in purge && p.1 in db.roots && p.1 <= bound ensures p.1 <= full {
      assert p == (p.0, p.1) && p in RootedUpTo(db.index, db.roots, zero, bound);
      CleanPurge.KeyIsIn(db, zero, bound, p.0, p.1);
      assert p.1 in candidates[p.0].slots;
      hide CleanPurge.CandidatesOf;
    }
  }
}
