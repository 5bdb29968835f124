/**
 The newest record of a key in the storages is always indexed, in every run whose cleans come after the flush up to
 their root. With it a rebuild from the storages is determined although newer roots are still in the cache.
 */
module NewestRecords {
  import opened Types
  import opened Database
  import opened DatabaseInvariant
  import opened DatabaseProof
  import opened DatabaseTheorems
  import CleanPurge
  import Sets

  ghost predicate NewestRecordsIndexed(index: Index, stores: Stores) {
    forall k: Pubkey, n: Slot | IsNewestRecord(stores, k, n) :: (k, n) in index
  }

  /** Clean's outdated versions are looked for once the roots up to the clean root are flushed. */
  ghost predicate Timely(db: Db, op: Op) {
    op.OpCleanOlder? ==> CleanPurge.Flushed(db.cache, db.ever, op.bound)
  }

  ghost predicate IsTimelyRun(dbs: seq<Db>, ops: seq<Op>) {
    IsRun(dbs, ops) && forall i :: 0 <= i < |ops| ==> Timely(dbs[i], ops[i])
  }

  lemma HasNewestRecord(stores: Stores, k: Pubkey, x: Slot) returns (n: Slot)
    requires HoldsKey(stores, x, k)
    ensures IsNewestRecord(stores, k, n) && x <= n
  {
    var holders := Holders(stores, k);
    assert x in holders;
    n := Sets.MaxOf(holders);
    forall y: Slot | HoldsKey(stores, y, k) ensures y <= n { assert y in holders; }
  }

  /** Records that go with their entries, or with all other records of the key, leave the newest ones indexed. */
  lemma RecordsGo(index: Index, index': Index, stores: Stores, stores': Stores)
    requires NewestRecordsIndexed(index, stores)
    requires forall x: Slot, k: Pubkey | HoldsKey(stores', x, k) :: HoldsKey(stores, x, k)
    requires forall k: Pubkey, m: Slot | IsNewestRecord(stores, k, m) && (k, m) in index ::
      ((k, m) in index' && HoldsKey(stores', m, k)) || forall x: Slot :: !HoldsKey(stores', x, k)
    ensures NewestRecordsIndexed(index', stores')
  {
    forall k: Pubkey, n: Slot | IsNewestRecord(stores', k, n) ensures (k, n) in index' {
      var m := HasNewestRecord(stores, k, n);
      assert HoldsKey(stores', m, k);
    }
  }

  /** They are indexed whenever no root is in the cache, whatever cleans came before. */
  lemma FlushedRecordsIndexed(db: Db)
    requires Core(db) && forall x | x in db.cache :: x !in db.ever
    ensures NewestRecordsIndexed(db.index, db.stores)
  {
    forall k: Pubkey, n: Slot | IsNewestRecord(db.stores, k, n) ensures (k, n) in db.index {
      assert Covered(db.index, db.ever, k, n);
      var p :| p in db.index && p.0 == k && p.1 in db.ever && n <= p.1;
      assert db.index[p].Stored?;
      assert HoldsKey(db.stores, p.1, k);
      assert p == (k, n);
    }
  }

  // ---------------------------------------------------------------- every operation

  lemma StoreRecords(db: Db, slot: Slot, accounts: map<Pubkey, Account>)
    requires NewestRecordsIndexed(db.index, db.stores)
    ensures NewestRecordsIndexed(StoreAccounts(db, slot, accounts).index, db.stores)
  {}

  lemma PurgeSlotRecords(db: Db, slot: Slot)
    requires Core(db) && NewestRecordsIndexed(db.index, db.stores) && CanPurgeSlot(db, slot)
    ensures NewestRecordsIndexed(PurgeSlot(db, slot).index, db.stores)
  {
    forall k: Pubkey, n: Slot | IsNewestRecord(db.stores, k, n) ensures (k, n) in PurgeSlot(db, slot).index {
      assert n in db.stores && (k, n) in db.index;
    }
  }

  /** A newest record that a flush does not reclaim stays, and so does its entry. */
  lemma FlushSpares(db: Db, slot: Slot, written: set<Pubkey>, clean: bool, mark: bool, k: Pubkey, m: Slot)
    requires CacheMatches(db.index, db.cache) && StoresOk(db.stores, db.cache, db.ever, db.history) &&
      CanFlush(db, slot)
    requires HoldsKey(db.stores, m, k) && (k, m) in db.index && (k, m) !in FlushReclaims(db, slot, written, clean, mark)
    ensures (k, m) in FlushedIndex(db, slot, written, clean, mark) && m !in FlushKills(db, slot, written, clean, mark)
  {
    assert m != slot && (k, m).1 == m;
  }

  lemma FlushSlotRecords(db: Db, slot: Slot, written: set<Pubkey>, clean: bool, mark: bool)
    requires Core(db) && NewestRecordsIndexed(db.index, db.stores) && CanFlush(db, slot)
    ensures var db' := FlushSlot(db, slot, written, clean, mark); NewestRecordsIndexed(db'.index, db'.stores)
  {
    var db' := FlushSlot(db, slot, written, clean, mark);
    forall k: Pubkey, n: Slot | IsNewestRecord(db'.stores, k, n) ensures (k, n) in db'.index {
      FlushRecordIndexed(db, slot, written, clean, mark, k, n);
    }
  }

  lemma FlushRecordIndexed(db: Db, slot: Slot, written: set<Pubkey>, clean: bool, mark: bool, k: Pubkey, n: Slot)
    requires Core(db) && NewestRecordsIndexed(db.index, db.stores) && CanFlush(db, slot)
    requires IsNewestRecord(FlushSlot(db, slot, written, clean, mark).stores, k, n)
    ensures (k, n) in FlushSlot(db, slot, written, clean, mark).index
  {
    FlushHolds(db, slot, written, clean, mark, k, n);
    FlushHolds(db, slot, written, clean, mark, k, slot);
    if n == slot {
      assert (k, slot) in db.index;
    } else {
      var m := HasNewestRecord(db.stores, k, n);
      FlushHolds(db, slot, written, clean, mark, k, m);
      if (k, m) !in FlushReclaims(db, slot, written, clean, mark) {
        FlushSpares(db, slot, written, clean, mark, k, m);
      } else {
        ReclaimedIsReplaced(db, slot, written, clean, mark, k, m);
      }
    }
  }

  lemma ReclaimedIsReplaced(db: Db, slot: Slot, written: set<Pubkey>, clean: bool, mark: bool, k: Pubkey, m: Slot)
    requires (k, m) in FlushReclaims(db, slot, written, clean, mark)
    ensures k in Writes(db.cache, slot, written, clean) && m < slot
  {}

  lemma {:induction false} FlushRecords(db: Db, slots: seq<Slot>, written: set<Pubkey>, clean: Option<Slot>, mark: bool)
    requires Core(db) && NewestRecordsIndexed(db.index, db.stores) && (forall x | x in slots :: CanFlush(db, x))
    requires forall i, j :: 0 <= i < j < |slots| ==> slots[i] > slots[j]
    requires slots != [] ==> WrittenOk(db.index, db.ever, written, slots[0], db.cleaned)
    ensures var db' := FlushSlots(db, slots, written, clean, mark); NewestRecordsIndexed(db'.index, db'.stores)
    decreases slots
  {
    if slots != [] {
      var slot, cleans := slots[0], Cleans(clean, slots[0]);
      var db1, written1 := FlushSlot(db, slot, written, cleans, mark), NowWritten(db.cache, slot, written, cleans);
      FlushSlotRecords(db, slot, written, cleans, mark);
      FlushSlotKeeps(db, slot, written, cleans, mark);
      if |slots| > 1 { FlushWritten(db, slot, written, cleans, mark, slots[1]); }
      forall x | x in slots[1..] ensures CanFlush(db1, x) {
        var i :| 0 <= i < |slots| - 1 && slots[1..][i] == x;
        assert slots[i + 1] == x && x < slot && x in slots;
      }
      hide FlushSlot, NowWritten, Core, CanFlush, NewestRecordsIndexed, WrittenOk;
      FlushRecords(db1, slots[1..], written1, clean, mark);
    }
  }

  /** A clean of outdated versions spares every newest record and its entry. */
  lemma CleanSparesNewest(db: Db, keys: set<Pubkey>, bound: Slot, k: Pubkey, m: Slot)
    requires CacheMatches(db.index, db.cache) && StoredMatches(db.index, db.stores) && db.roots <= db.ever
    requires RootsOk(db.index, db.roots, db.cache, db.ever) && StoresOk(db.stores, db.cache, db.ever, db.history)
    requires CleanPurge.Flushed(db.cache, db.ever, bound)
    requires IsNewestRecord(db.stores, k, m) && (k, m) in db.index
    ensures var db' := CleanOlder(db, keys, bound);
      (k, m) in db'.index && m in db'.stores && db'.stores[m] == db.stores[m]
  {
    var older := Older(db.index, db.roots, keys, bound);
    assert m in db.roots;
    if m < bound {
      forall q | q in db.index && q.0 == k && q.1 in db.roots && q.1 <= bound ensures q.1 <= m {
        assert db.index[q].Stored?;
        assert HoldsKey(db.stores, q.1, k);
      }
      assert IsNewestRooted(db.index, db.roots, (k, m), bound);
    }
    assert (k, m) !in older;
    assert (k, m).1 == m;
  }

  lemma CleanOlderRecords(db: Db, keys: set<Pubkey>, bound: Slot)
    requires Core(db) && NewestRecordsIndexed(db.index, db.stores) && CleanPurge.Flushed(db.cache, db.ever, bound)
    ensures var db' := CleanOlder(db, keys, bound); NewestRecordsIndexed(db'.index, db'.stores)
  {
    var db' := CleanOlder(db, keys, bound);
    forall k: Pubkey, m: Slot | IsNewestRecord(db.stores, k, m) && (k, m) in db.index
      ensures (k, m) in db'.index && HoldsKey(db'.stores, m, k)
    {
      CleanSparesNewest(db, keys, bound, k, m);
    }
    RecordsGo(db.index, db'.index, db.stores, db'.stores);
  }

  /** A purge spares a newest record and its entry, or it takes every record of the key, and the newest was zero. */
  lemma PurgeSparesNewest(db: Db, keys: set<Pubkey>, bound: Slot, k: Pubkey, m: Slot)
    requires Core(db) && CanPurgeZero(db, keys, bound) && IsNewestRecord(db.stores, k, m) && (k, m) in db.index
    ensures var db' := PurgeZero(db, keys, bound);
      || ((k, m) in db'.index && m in db'.stores && db'.stores[m] == db.stores[m])
      || ((forall x: Slot :: !HoldsKey(db'.stores, x, k)) && db.stores[m].accounts[k].IsZeroLamport())
  {
    var gone := RootedUpTo(db.index, db.roots, keys, bound);
    var db' := PurgeZero(db, keys, bound);
    if (k, m) in gone {
      assert m in SlotsOf(gone, k);
      PurgedEverywhere(db, keys, bound, k);
      forall x: Slot ensures !HoldsKey(db'.stores, x, k) { assert HoldsKey(db.stores, x, k) ==>
        x in Holders(db.stores, k); }
      NewestIsZero(db, keys, bound, k, m);
    } else {
      assert (k, m) in db'.index && (k, m).1 == m;
    }
  }

  lemma NewestIsZero(db: Db, keys: set<Pubkey>, bound: Slot, k: Pubkey, m: Slot)
    requires StoredMatches(db.index, db.stores) && CanPurgeZero(db, keys, bound) && IsNewestRecord(db.stores, k, m)
    requires (k, m) in RootedUpTo(db.index, db.roots, keys, bound)
    ensures db.stores[m].accounts[k].IsZeroLamport()
  {
    var gone := RootedUpTo(db.index, db.roots, keys, bound);
    forall q | q in db.index && q.0 == k && q.1 in db.roots && q.1 <= bound ensures q.1 <= m {
      assert q in gone && db.index[q].Stored?;
      assert HoldsKey(db.stores, q.1, k);
    }
    assert IsNewestRooted(db.index, db.roots, (k, m), bound);
    assert IsZero(db.stores, (k, m));
  }

  lemma PurgeZeroRecords(db: Db, keys: set<Pubkey>, bound: Slot)
    requires Core(db) && NewestRecordsIndexed(db.index, db.stores) && CanPurgeZero(db, keys, bound)
    ensures var db' := PurgeZero(db, keys, bound); NewestRecordsIndexed(db'.index, db'.stores)
  {
    var db' := PurgeZero(db, keys, bound);
    forall k: Pubkey, m: Slot | IsNewestRecord(db.stores, k, m) && (k, m) in db.index
      ensures ((k, m) in db'.index && HoldsKey(db'.stores, m, k)) || forall x: Slot :: !HoldsKey(db'.stores, x, k)
    {
      PurgeSparesNewest(db, keys, bound, k, m);
    }
    RecordsGo(db.index, db'.index, db.stores, db'.stores);
  }

  lemma ShrinkRecordsIndexed(db: Db, slot: Slot, zero: set<Pubkey>)
    requires Core(db) && NewestRecordsIndexed(db.index, db.stores) && CanShrink(db, slot, zero)
    ensures var db' := Shrink(db, slot, zero); NewestRecordsIndexed(db'.index, db'.stores)
  {
    var db' := Shrink(db, slot, zero);
    forall k: Pubkey, m: Slot | IsNewestRecord(db.stores, k, m) && (k, m) in db.index
      ensures ((k, m) in db'.index && HoldsKey(db'.stores, m, k)) || forall x: Slot :: !HoldsKey(db'.stores, x, k)
    {
      ShrinkSparesNewest(db, slot, zero, k, m);
    }
    RecordsGo(db.index, db'.index, db.stores, db'.stores);
  }

  lemma ShrinkSparesNewest(db: Db, slot: Slot, zero: set<Pubkey>, k: Pubkey, m: Slot)
    requires CacheMatches(db.index, db.cache) && StoredMatches(db.index, db.stores) && RefsCover(db.refs, db.stores)
    requires StoresOk(db.stores, db.cache, db.ever, db.history)
    requires CanShrink(db, slot, zero) && HoldsKey(db.stores, m, k) && (k, m) in db.index
    ensures var db' := Shrink(db, slot, zero);
      ((k, m) in db'.index && HoldsKey(db'.stores, m, k)) || forall x: Slot :: !HoldsKey(db'.stores, x, k)
  {
    var db' := Shrink(db, slot, zero);
    assert db.index[(k, m)].Stored? && k in AliveAt(db.index, m);
    if m == slot && k in zero && db' != db {
      SingleRef(db, slot, zero, k);
      forall x: Slot ensures !HoldsKey(db'.stores, x, k) {
        assert HoldsKey(db.stores, x, k) ==> x in Holders(db.stores, k);
      }
    }
  }

  // ---------------------------------------------------------------- every run

  lemma OperationKeepsRecords(db: Db, op: Op)
    requires Inv(db) && NewestRecordsIndexed(db.index, db.stores) && Can(db, op) && Timely(db, op)
    ensures var db' := Apply(db, op); NewestRecordsIndexed(db'.index, db'.stores)
  {
    match op {
      case OpStore(slot, accounts) => StoreRecords(db, slot, accounts);
      case OpRoot(slot) =>
      case OpPurgeSlot(slot) => PurgeSlotRecords(db, slot);
      case OpFlush(slots, upTo, clean, mark) => FlushRecords(db, slots, {}, clean, mark);
      case OpCleanOlder(keys, bound) => CleanOlderRecords(db, keys, bound);
      case OpPurgeZero(keys, bound) => PurgeZeroRecords(db, keys, bound);
      case OpShrink(slot, zero) => ShrinkRecordsIndexed(db, slot, zero);
    }
  }

  lemma {:induction false} RecordsOfRuns(dbs: seq<Db>, ops: seq<Op>, i: nat)
    requires IsTimelyRun(dbs, ops) && i < |dbs|
    ensures Inv(dbs[i]) && NewestRecordsIndexed(dbs[i].index, dbs[i].stores)
  {
    InvariantOfRuns(dbs, ops, i);
    if i > 0 {
      RecordsOfRuns(dbs, ops, i - 1);
      assert dbs[i - 1 + 1] == Apply(dbs[i - 1], ops[i - 1]) && Timely(dbs[i - 1], ops[i - 1]);
      OperationKeepsRecords(dbs[i - 1], ops[i - 1]);
    }
  }

  // ---------------------------------------------------------------- restarts

  /** The bound of a snapshot: no cached root is at or below it, and no storage above. */
  ghost predicate IsSnapshotBound(db: Db, bound: Slot) {
    && db.cleaned <= bound && (forall x | x in db.stores :: x <= bound)
    && forall x | x in db.cache && x in db.ever :: x > bound
  }

  /** The newest record up to the bound is the newest visible version. */
  lemma NewestRecordIsVisible(db: Db, bound: Slot, k: Pubkey, n: Slot)
    requires Core(db) && NewestRecordsIndexed(db.index, db.stores) && IsSnapshotBound(db, bound)
    requires IsNewestRecord(db.stores, k, n)
    ensures IsLatest(db.index, db.roots, {}, bound, k, n)
  {
    assert (k, n) in db.index && n in db.ever;
    forall q | q in db.index && q.0 == k && Visible(db.roots, {}, bound, q.1) ensures q.1 <= n {
      assert db.index[q].Stored?;
      assert HoldsKey(db.stores, q.1, k);
    }
  }

  lemma SnapshotAgrees(db: Db, bound: Slot, k: Pubkey, r: Option<Account>)
    requires Core(db) && NewestRecordsIndexed(db.index, db.stores) && IsSnapshotBound(db, bound)
    requires Rebuilds(db.stores, k, r)
    ensures ShouldLoad(db.history, db.ever, {}, bound, k, r)
  {
    if n :| IsNewestRecord(db.stores, k, n) && r == NonZero(db.stores[n].accounts[k]) {
      NewestRecordIsVisible(db, bound, k, n);
      LatestIsLatestWrite(db, {}, bound, k, n);
      EntryAccount(db, (k, n));
    } else {
      forall p | p in db.index && p.0 == k ensures !Visible(db.roots, {}, bound, p.1) {
        assert p.1 in db.roots && p.1 <= bound ==> HoldsKey(db.stores, p.1, k);
      }
      NothingIsNothing(db, {}, bound, k);
    }
  }

  /** A restart from the storages, taken while newer roots are in the cache, gives each key its newest write up to the
      snapshot: no purged account comes back and none is lost. */
  lemma SnapshotSeesTheSame(dbs: seq<Db>, ops: seq<Op>, i: nat, bound: Slot, k: Pubkey, r: Option<Account>)
    requires IsTimelyRun(dbs, ops) && i < |dbs| && IsSnapshotBound(dbs[i], bound) && Rebuilds(dbs[i].stores, k, r)
    ensures ShouldLoad(dbs[i].history, dbs[i].ever, {}, bound, k, r)
  {
    RecordsOfRuns(dbs, ops, i);
    SnapshotAgrees(dbs[i], bound, k, r);
  }
}
