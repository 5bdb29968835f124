/**
 Every operation of the accounts database keeps the invariant.
 */
module DatabaseProof {
  import opened Types
  import Sets
  import opened Database
  import opened DatabaseInvariant

  // ---------------------------------------------------------------- foreground operations

  lemma StoreAccountsMatches(db: Db, slot: Slot, accounts: map<Pubkey, Account>)
    requires CanStore(db, slot)
    requires CacheMatches(db.index, db.cache) && StoredMatches(db.index, db.stores)
    requires StoresOk(db.stores, db.cache, db.ever, db.history)
    ensures var db' := StoreAccounts(db, slot, accounts);
      CacheMatches(db'.index, db'.cache) && StoredMatches(db'.index, db.stores)
  {
    var db' := StoreAccounts(db, slot, accounts);
    forall p | p in db'.index && db'.index[p].Cached? ensures p.1 in db'.cache && p.0 in db'.cache[p.1] {}
    forall x, k | x in db'.cache && k in db'.cache[x] ensures (k, x) in db'.index && db'.index[(k, x)].Cached? {
      assert (k, x) in Pairs(accounts.Keys, slot) || (x in db.cache && k in db.cache[x]);
    }
  }

  lemma StoreAccountsHistory(db: Db, slot: Slot, accounts: map<Pubkey, Account>)
    requires CanStore(db, slot)
    requires StoresOk(db.stores, db.cache, db.ever, db.history) && CacheHistory(db.cache, db.ever, db.history)
    requires RootsOk(db.index, db.roots, db.cache, db.ever)
    ensures var db' := StoreAccounts(db, slot, accounts);
      && StoresOk(db.stores, db'.cache, db.ever, db'.history) && CacheHistory(db'.cache, db.ever, db'.history)
      && RootsOk(db'.index, db.roots, db'.cache, db.ever)
  {}

  /** Entries and writes of unrooted slots do not matter to the rooted history. */
  lemma UnrootedChange(db: Db, index': Index, history': Cache)
    requires forall p: Pair | p.1 in db.ever :: p in index' <==> p in db.index
    requires forall x | x in db.ever ::
      (x in history' <==> x in db.history) && (x in history' ==> history'[x] == db.history[x])
    requires NewestIndexed(db.index, db.ever, db.history, db.cleaned) && RecordsCovered(db.index, db.stores, db.ever)
    ensures NewestIndexed(index', db.ever, history', db.cleaned) && RecordsCovered(index', db.stores, db.ever)
  {
    forall k: Pubkey, m: Slot, bound: Slot | db.cleaned <= bound && IsNewestWrite(history', db.ever, k, m, bound)
      ensures (k, m) in index' || (history'[m][k].IsZeroLamport() && NoRootedEntry(index', db.ever, k, bound))
    {
      assert IsNewestWrite(db.history, db.ever, k, m, bound);
      assert (k, m).1 in db.ever;
    }
    forall x: Slot, k: Pubkey | HoldsKey(db.stores, x, k) ensures Covered(index', db.ever, k, x) {
      assert Covered(db.index, db.ever, k, x);
    }
  }

  lemma StoreAccountsKeeps(db: Db, slot: Slot, accounts: map<Pubkey, Account>)
    requires Inv(db) && CanStore(db, slot)
    ensures Inv(StoreAccounts(db, slot, accounts))
  {
    var db' := StoreAccounts(db, slot, accounts);
    StoreAccountsMatches(db, slot, accounts);
    StoreAccountsHistory(db, slot, accounts);
    UnrootedChange(db, db'.index, db'.history);
  }

  lemma AddRootNewest(db: Db, slot: Slot)
    requires CanAddRoot(db, slot)
    requires CacheMatches(db.index, db.cache) && StoredMatches(db.index, db.stores)
    requires StoresOk(db.stores, db.cache, db.ever, db.history) && CacheHistory(db.cache, db.ever, db.history)
    requires NewestIndexed(db.index, db.ever, db.history, db.cleaned)
    ensures NewestIndexed(db.index, db.ever + {slot}, db.history, db.cleaned)
  {
    var ever' := db.ever + {slot};
    forall k: Pubkey, m: Slot, bound: Slot | db.cleaned <= bound && IsNewestWrite(db.history, ever', k, m, bound)
      ensures (k, m) in db.index || (db.history[m][k].IsZeroLamport() && NoRootedEntry(db.index, ever', k, bound))
    {
      if m == slot {
        assert slot in db.cache && k in db.cache[slot];
      } else {
        assert IsNewestWrite(db.history, db.ever, k, m, bound);
        assert slot <= bound ==> (k, slot) !in db.index;
      }
    }
  }

  lemma AddRootKeeps(db: Db, slot: Slot)
    requires Inv(db) && CanAddRoot(db, slot)
    ensures Inv(AddRoot(db, slot))
  {
    AddRootNewest(db, slot);
    AddRootRest(db, slot);
  }

  lemma AddRootRest(db: Db, slot: Slot)
    requires CanAddRoot(db, slot)
    requires StoresOk(db.stores, db.cache, db.ever, db.history) && CacheHistory(db.cache, db.ever, db.history)
    requires RootsOk(db.index, db.roots, db.cache, db.ever) && RecordsCovered(db.index, db.stores, db.ever)
    requires FlushOrder(db.stores, db.cache, db.ever)
    ensures var ever' := db.ever + {slot};
      && StoresOk(db.stores, db.cache, ever', db.history) && CacheHistory(db.cache, ever', db.history)
      && RootsOk(db.index, db.roots + {slot}, db.cache, ever') && RecordsCovered(db.index, db.stores, ever')
      && FlushOrder(db.stores, db.cache, ever')
  {
    forall x: Slot, k: Pubkey | HoldsKey(db.stores, x, k) ensures Covered(db.index, db.ever + {slot}, k, x) {
      assert Covered(db.index, db.ever, k, x);
    }
  }

  lemma PurgeSlotMatches(db: Db, slot: Slot)
    requires CanPurgeSlot(db, slot)
    requires CacheMatches(db.index, db.cache) && StoredMatches(db.index, db.stores)
    requires StoresOk(db.stores, db.cache, db.ever, db.history) && CacheHistory(db.cache, db.ever, db.history)
    requires RootsOk(db.index, db.roots, db.cache, db.ever)
    ensures var db' := PurgeSlot(db, slot);
      && CacheMatches(db'.index, db'.cache) && StoredMatches(db'.index, db.stores)
      && StoresOk(db.stores, db'.cache, db.ever, db'.history) && CacheHistory(db'.cache, db.ever, db'.history)
      && RootsOk(db'.index, db.roots, db'.cache, db.ever)
  {}

  lemma PurgeSlotKeeps(db: Db, slot: Slot)
    requires Inv(db) && CanPurgeSlot(db, slot)
    ensures Inv(PurgeSlot(db, slot))
  {
    var db' := PurgeSlot(db, slot);
    PurgeSlotMatches(db, slot);
    UnrootedChange(db, db'.index, db'.history);
  }

  // ---------------------------------------------------------------- reclaims of a clean

  ghost predicate StoredEntries(index: Index, gone: set<Pair>) {
    forall p | p in gone :: p in index && index[p].Stored?
  }

  lemma ReclaimMatches(db: Db, gone: set<Pair>, removed: set<Pubkey>)
    requires StoredEntries(db.index, gone)
    requires CacheMatches(db.index, db.cache) && StoredMatches(db.index, db.stores)
    ensures var db' := Reclaim(db, gone, removed);
      CacheMatches(db'.index, db.cache) && StoredMatches(db'.index, db'.stores)
  {}

  lemma ReclaimStores(db: Db, gone: set<Pair>, removed: set<Pubkey>)
    requires StoresOk(db.stores, db.cache, db.ever, db.history) && FlushOrder(db.stores, db.cache, db.ever)
    requires RootsOk(db.index, db.roots, db.cache, db.ever)
    ensures var db' := Reclaim(db, gone, removed);
      && StoresOk(db'.stores, db.cache, db.ever, db.history) && FlushOrder(db'.stores, db.cache, db.ever)
      && RootsOk(db'.index, db'.roots, db.cache, db.ever)
  {}

  lemma UnrefCovers(refs: Refs, stores: Stores, dead: set<Slot>, removed: set<Pubkey>, k: Pubkey)
    requires |Holders(stores, k)| <= Ref(refs, k)
    requires k in removed ==> Holders(stores, k) <= dead
    ensures |Holders(stores - dead, k)| <= Ref(Unref(refs, stores, dead, removed), k)
  {
    var before, after := Holders(stores, k), Holders(stores - dead, k);
    assert after == before - dead;
    assert before == after + (before * dead);
  }

  lemma ReclaimRefs(db: Db, gone: set<Pair>, removed: set<Pubkey>)
    requires RefsCover(db.refs, db.stores)
    requires forall k | k in removed ::
      Holders(db.stores, k) <= Emptied(Reclaim(db, gone, removed).index, db.stores, gone)
    ensures RefsCover(Reclaim(db, gone, removed).refs, Reclaim(db, gone, removed).stores)
  {
    var dead := Emptied(Reclaim(db, gone, removed).index, db.stores, gone);
    forall k: Pubkey ensures |Holders(db.stores - dead, k)| <= Ref(Unref(db.refs, db.stores, dead, removed), k) {
      UnrefCovers(db.refs, db.stores, dead, removed, k);
    }
  }

  /** A rooted entry in the index was written. */
  lemma EntryWritten(db: Db, p: Pair)
    requires p in db.index
    requires CacheMatches(db.index, db.cache) && StoredMatches(db.index, db.stores)
    requires StoresOk(db.stores, db.cache, db.ever, db.history) && CacheHistory(db.cache, db.ever, db.history)
    ensures p.1 in db.history && p.0 in db.history[p.1]
  {}

  lemma {:induction false} HasNewestRooted(index: Index, roots: set<Slot>, p: Pair, bound: Slot) returns (q: Pair)
    requires p in index && p.1 in roots && p.1 <= bound
    ensures IsNewestRooted(index, roots, q, bound) && q.0 == p.0 && p.1 <= q.1
    decreases bound - p.1
  {
    if IsNewestRooted(index, roots, p, bound) {
      q := p;
    } else {
      var r :| r in index && r.0 == p.0 && r.1 in roots && r.1 <= bound && r.1 > p.1;
      q := HasNewestRooted(index, roots, r, bound);
    }
  }

  lemma OlderIsSuperseded(db: Db, keys: set<Pubkey>, bound: Slot, p: Pair)
    requires p in Older(db.index, db.roots, keys, bound)
    requires StoredMatches(db.index, db.stores) && StoresOk(db.stores, db.cache, db.ever, db.history)
    requires RootsOk(db.index, db.roots, db.cache, db.ever)
    ensures Superseded(CleanOlder(db, keys, bound).index, db.ever, p, bound)
  {
    var q := HasNewestRooted(db.index, db.roots, p, bound);
    assert q in CleanOlder(db, keys, bound).index;
  }

  lemma CleanOlderNewest(db: Db, keys: set<Pubkey>, bound: Slot)
    requires CacheMatches(db.index, db.cache) && StoredMatches(db.index, db.stores)
    requires StoresOk(db.stores, db.cache, db.ever, db.history) && CacheHistory(db.cache, db.ever, db.history)
    requires RootsOk(db.index, db.roots, db.cache, db.ever)
    requires NewestIndexed(db.index, db.ever, db.history, db.cleaned) && RecordsCovered(db.index, db.stores, db.ever)
    ensures var db' := CleanOlder(db, keys, bound);
      NewestIndexed(db'.index, db.ever, db.history, db'.cleaned) && RecordsCovered(db'.index, db'.stores, db.ever)
  {
    var db' := CleanOlder(db, keys, bound);
    forall p | p in db.index && p !in db'.index ensures Superseded(db'.index, db.ever, p, bound) {
      OlderIsSuperseded(db, keys, bound, p);
    }
    forall p | p in db'.index ensures p.1 in db.history && p.0 in db.history[p.1] { EntryWritten(db, p); }
    forall p | p in db.index && p !in db'.index ensures Superseded(db'.index, db.ever, p, db'.cleaned) {
      assert Superseded(db'.index, db.ever, p, bound);
    }
    NewestStays(db.index, db'.index, db.ever, db.history, db.cleaned, db'.cleaned);
    RecordsStayCovered(db.index, db'.index, db.stores, db'.stores, db.ever, bound);
  }

  lemma CleanOlderKeeps(db: Db, keys: set<Pubkey>, bound: Slot)
    requires Inv(db)
    ensures Inv(CleanOlder(db, keys, bound))
  {
    var gone := Older(db.index, db.roots, keys, bound);
    ReclaimMatches(db, gone, {});
    ReclaimStores(db, gone, {});
    ReclaimRefs(db, gone, {});
    CleanOlderNewest(db, keys, bound);
  }

  // ---------------------------------------------------------------- purging zero-lamport keys

  /** All the storages that hold a purged key are removed. */
  lemma PurgedEverywhere(db: Db, keys: set<Pubkey>, bound: Slot, k: Pubkey)
    requires CanPurgeZero(db, keys, bound)
    requires StoredMatches(db.index, db.stores) && RefsCover(db.refs, db.stores)
    requires SlotsOf(RootedUpTo(db.index, db.roots, keys, bound), k) != {}
    ensures var gone := RootedUpTo(db.index, db.roots, keys, bound);
      Holders(db.stores, k) <= Emptied(PurgeZero(db, keys, bound).index, db.stores, gone)
  {
    var gone := RootedUpTo(db.index, db.roots, keys, bound);
    var slots, holders := SlotsOf(gone, k), Holders(db.stores, k);
    forall x | x in slots ensures x in holders { assert (k, x) in gone; }
    var y :| y in slots;
    assert (k, y) in gone && (k, y).0 == k;
    assert |holders| <= Ref(db.refs, k);
    Sets.SubsetSize(slots, holders);
    Sets.SameSize(slots, holders);
    forall x | x in holders ensures x in Emptied(PurgeZero(db, keys, bound).index, db.stores, gone) {
      assert (k, x) in gone;
      assert k in KeysAt(gone, x);
    }
  }

  lemma AbsentHasNoRecord(db: Db, k: Pubkey)
    requires forall p | p in db.index :: p.0 != k
    requires RecordsCovered(db.index, db.stores, db.ever)
    ensures Holders(db.stores, k) == {}
  {
    forall x: Slot ensures x !in Holders(db.stores, k) {
      assert HoldsKey(db.stores, x, k) ==> Covered(db.index, db.ever, k, x);
    }
  }

  lemma RemovedEverywhere(db: Db, keys: set<Pubkey>, bound: Slot, k: Pubkey)
    requires CanPurgeZero(db, keys, bound)
    requires StoredMatches(db.index, db.stores) && RefsCover(db.refs, db.stores)
    requires RecordsCovered(db.index, db.stores, db.ever)
    requires k in Removed(db.index, RootedUpTo(db.index, db.roots, keys, bound), keys)
    ensures var gone := RootedUpTo(db.index, db.roots, keys, bound);
      Holders(db.stores, k) <= Emptied(PurgeZero(db, keys, bound).index, db.stores, gone)
  {
    var gone := RootedUpTo(db.index, db.roots, keys, bound);
    if SlotsOf(gone, k) != {} {
      PurgedEverywhere(db, keys, bound, k);
    } else {
      forall p | p in db.index ensures p.0 != k {
        assert p in gone ==> p.1 in SlotsOf(gone, p.0);
      }
      AbsentHasNoRecord(db, k);
    }
  }

  lemma PurgeZeroRefs(db: Db, keys: set<Pubkey>, bound: Slot)
    requires CanPurgeZero(db, keys, bound)
    requires StoredMatches(db.index, db.stores) && RefsCover(db.refs, db.stores)
    requires RecordsCovered(db.index, db.stores, db.ever)
    ensures RefsCover(PurgeZero(db, keys, bound).refs, PurgeZero(db, keys, bound).stores)
  {
    var gone := RootedUpTo(db.index, db.roots, keys, bound);
    var removed := Removed(db.index, gone, keys);
    var dead := Emptied(PurgeZero(db, keys, bound).index, db.stores, gone);
    forall k | k in removed ensures Holders(db.stores, k) <= dead {
      RemovedEverywhere(db, keys, bound, k);
    }
    ReclaimRefs(db, gone, removed);
  }

  /** The newest rooted write of a purged key is zero-lamport, and nothing rooted is left of it. */
  lemma PurgedIsZero(db: Db, keys: set<Pubkey>, bound: Slot, k: Pubkey, m: Slot, limit: Slot)
    requires CanPurgeZero(db, keys, bound)
    requires CacheMatches(db.index, db.cache) && StoredMatches(db.index, db.stores)
    requires StoresOk(db.stores, db.cache, db.ever, db.history) && CacheHistory(db.cache, db.ever, db.history)
    requires RootsOk(db.index, db.roots, db.cache, db.ever)
    requires bound <= limit && IsNewestWrite(db.history, db.ever, k, m, limit)
    requires (k, m) in RootedUpTo(db.index, db.roots, keys, bound)
    ensures db.history[m][k].IsZeroLamport() && NoRootedEntry(PurgeZero(db, keys, bound).index, db.ever, k, limit)
  {
    forall p | p in db.index && p.0 == k && p.1 in db.ever && p.1 <= limit
      ensures p.1 <= m && p.1 in db.roots { EntryWritten(db, p); }
    assert IsNewestRooted(db.index, db.roots, (k, m), bound);
    assert IsZero(db.stores, (k, m));
  }

  lemma PurgeZeroNewest(db: Db, keys: set<Pubkey>, bound: Slot)
    requires CanPurgeZero(db, keys, bound)
    requires CacheMatches(db.index, db.cache) && StoredMatches(db.index, db.stores)
    requires StoresOk(db.stores, db.cache, db.ever, db.history) && CacheHistory(db.cache, db.ever, db.history)
    requires RootsOk(db.index, db.roots, db.cache, db.ever)
    requires NewestIndexed(db.index, db.ever, db.history, db.cleaned)
    ensures NewestIndexed(PurgeZero(db, keys, bound).index, db.ever, db.history, PurgeZero(db, keys, bound).cleaned)
  {
    var db' := PurgeZero(db, keys, bound);
    forall k: Pubkey, m: Slot, limit: Slot | db'.cleaned <= limit && IsNewestWrite(db.history, db.ever, k, m, limit)
      ensures (k, m) in db'.index || (db.history[m][k].IsZeroLamport() && NoRootedEntry(db'.index, db.ever, k, limit))
    {
      if (k, m) in RootedUpTo(db.index, db.roots, keys, bound) {
        PurgedIsZero(db, keys, bound, k, m, limit);
      }
    }
  }

  lemma PurgeZeroRecords(db: Db, keys: set<Pubkey>, bound: Slot)
    requires CanPurgeZero(db, keys, bound)
    requires StoredMatches(db.index, db.stores) && RefsCover(db.refs, db.stores)
    requires RecordsCovered(db.index, db.stores, db.ever)
    ensures RecordsCovered(PurgeZero(db, keys, bound).index, PurgeZero(db, keys, bound).stores, db.ever)
  {
    var db' := PurgeZero(db, keys, bound);
    var gone := RootedUpTo(db.index, db.roots, keys, bound);
    forall x: Slot, k: Pubkey | HoldsKey(db'.stores, x, k) ensures Covered(db'.index, db.ever, k, x) {
      assert x in Holders(db.stores, k);
      if SlotsOf(gone, k) != {} { PurgedEverywhere(db, keys, bound, k); }
      var p :| p in db.index && p.0 == k && p.1 in db.ever && x <= p.1;
      assert p == (k, p.1);
      assert p in db'.index;
    }
  }

  lemma PurgeZeroKeeps(db: Db, keys: set<Pubkey>, bound: Slot)
    requires Inv(db) && CanPurgeZero(db, keys, bound)
    ensures Inv(PurgeZero(db, keys, bound))
  {
    var gone := RootedUpTo(db.index, db.roots, keys, bound);
    var removed := Removed(db.index, gone, keys);
    ReclaimMatches(db, gone, removed);
    ReclaimStores(db, gone, removed);
    PurgeZeroRefs(db, keys, bound);
    PurgeZeroNewest(db, keys, bound);
    PurgeZeroRecords(db, keys, bound);
  }

  // ---------------------------------------------------------------- shrink

  lemma ShrinkMatches(db: Db, slot: Slot, zero: set<Pubkey>)
    requires CanShrink(db, slot, zero)
    requires CacheMatches(db.index, db.cache) && StoredMatches(db.index, db.stores)
    ensures var db' := Shrink(db, slot, zero);
      CacheMatches(db'.index, db.cache) && StoredMatches(db'.index, db'.stores)
  {
    var db' := Shrink(db, slot, zero);
    forall p | p in db'.index && db'.index[p].Stored? ensures HoldsKey(db'.stores, p.1, p.0) {
      assert p == (p.0, p.1);
    }
    forall k | k in zero ensures (k, slot) in db.index && db.index[(k, slot)].Stored? {}
  }

  lemma ShrinkStores(db: Db, slot: Slot, zero: set<Pubkey>)
    requires CanShrink(db, slot, zero)
    requires StoresOk(db.stores, db.cache, db.ever, db.history) && FlushOrder(db.stores, db.cache, db.ever)
    requires RootsOk(db.index, db.roots, db.cache, db.ever)
    ensures var db' := Shrink(db, slot, zero);
      && StoresOk(db'.stores, db.cache, db.ever, db.history) && FlushOrder(db'.stores, db.cache, db.ever)
      && RootsOk(db'.index, db'.roots, db.cache, db.ever)
  {}

  /** A zero-lamport key with one reference is held by this storage alone. */
  lemma SingleRef(db: Db, slot: Slot, zero: set<Pubkey>, k: Pubkey)
    requires CanShrink(db, slot, zero) && k in zero
    requires StoredMatches(db.index, db.stores) && RefsCover(db.refs, db.stores)
    ensures Holders(db.stores, k) == {slot}
  {
    assert (k, slot) in db.index;
    assert |Holders(db.stores, k)| <= Ref(db.refs, k);
    Sets.SubsetSize({slot}, Holders(db.stores, k));
    Sets.SameSize({slot}, Holders(db.stores, k));
  }

  lemma ShrinkNewest(db: Db, slot: Slot, zero: set<Pubkey>)
    requires CanShrink(db, slot, zero)
    requires CacheMatches(db.index, db.cache) && StoredMatches(db.index, db.stores)
    requires StoresOk(db.stores, db.cache, db.ever, db.history) && CacheHistory(db.cache, db.ever, db.history)
    requires FlushOrder(db.stores, db.cache, db.ever) && RefsCover(db.refs, db.stores)
    requires NewestIndexed(db.index, db.ever, db.history, db.cleaned)
    ensures NewestIndexed(Shrink(db, slot, zero).index, db.ever, db.history, db.cleaned)
  {
    var db' := Shrink(db, slot, zero);
    forall k: Pubkey, m: Slot, bound: Slot | db.cleaned <= bound && IsNewestWrite(db.history, db.ever, k, m, bound)
      ensures (k, m) in db'.index || (db.history[m][k].IsZeroLamport() && NoRootedEntry(db'.index, db.ever, k, bound))
    {
      if m == slot && k in zero { DroppedIsLast(db, slot, zero, k, bound); }
    }
  }

  lemma DroppedIsLast(db: Db, slot: Slot, zero: set<Pubkey>, k: Pubkey, bound: Slot)
    requires CanShrink(db, slot, zero) && k in zero && IsNewestWrite(db.history, db.ever, k, slot, bound)
    requires CacheMatches(db.index, db.cache) && StoredMatches(db.index, db.stores)
    requires StoresOk(db.stores, db.cache, db.ever, db.history) && CacheHistory(db.cache, db.ever, db.history)
    requires FlushOrder(db.stores, db.cache, db.ever) && RefsCover(db.refs, db.stores)
    ensures db.history[slot][k].IsZeroLamport()
    ensures forall p | p in db.index && p.0 == k && p.1 in db.ever && p.1 <= bound :: p.1 == slot
  {
    assert (k, slot) in db.index && IsZero(db.stores, (k, slot));
    SingleRef(db, slot, zero, k);
    forall p | p in db.index && p.0 == k && p.1 in db.ever && p.1 <= bound ensures p.1 == slot {
      EntryWritten(db, p);
      assert db.index[p].Stored? ==> p.1 in Holders(db.stores, k);
    }
  }

  lemma ShrinkRecord(db: Db, slot: Slot, zero: set<Pubkey>, x: Slot, k: Pubkey)
    requires CanShrink(db, slot, zero) && AliveAt(db.index, slot) - zero != {}
    requires StoredMatches(db.index, db.stores) && RefsCover(db.refs, db.stores) && slot in db.ever
    requires RecordsCovered(db.index, db.stores, db.ever)
    requires HoldsKey(Shrink(db, slot, zero).stores, x, k)
    ensures Covered(Shrink(db, slot, zero).index, db.ever, k, x)
  {
    var db' := Shrink(db, slot, zero);
    if x == slot {
      assert (k, slot) in db'.index;
    } else {
      assert HoldsKey(db.stores, x, k);
      if k in zero { SingleRef(db, slot, zero, k); }
      assert x in Holders(db.stores, k);
      var p :| p in db.index && p.0 == k && p.1 in db.ever && x <= p.1;
      assert p in db'.index;
    }
  }

  lemma ShrinkRecords(db: Db, slot: Slot, zero: set<Pubkey>)
    requires CanShrink(db, slot, zero)
    requires StoredMatches(db.index, db.stores) && RefsCover(db.refs, db.stores) && slot in db.ever
    requires RecordsCovered(db.index, db.stores, db.ever)
    ensures RecordsCovered(Shrink(db, slot, zero).index, Shrink(db, slot, zero).stores, db.ever)
  {
    if AliveAt(db.index, slot) - zero != {} {
      forall x: Slot, k: Pubkey | HoldsKey(Shrink(db, slot, zero).stores, x, k)
        ensures Covered(Shrink(db, slot, zero).index, db.ever, k, x)
      {
        ShrinkRecord(db, slot, zero, x, k);
      }
    }
  }

  /** A key loses a reference exactly when the storage loses its record. */
  lemma ShrunkRef(db: Db, slot: Slot, zero: set<Pubkey>, k: Pubkey)
    requires CanShrink(db, slot, zero)
    requires StoredMatches(db.index, db.stores)
    requires |Holders(db.stores, k)| <= Ref(db.refs, k)
    ensures var db' := Shrink(db, slot, zero);
      Ref(db.refs, k) - |Holders(db.stores, k)| == Ref(db'.refs, k) - |Holders(db'.stores, k)|
  {
    var db' := Shrink(db, slot, zero);
    var kept := AliveAt(db.index, slot) - zero;
    var before, after := Holders(db.stores, k), Holders(db'.stores, k);
    if kept != {} {
      assert k in kept ==> (k, slot) in db.index;
      if k in Dropped(db.stores[slot], kept) {
        assert slot in before && after == before - {slot};
      } else {
        assert after == before;
      }
    }
  }

  lemma ShrinkKeeps(db: Db, slot: Slot, zero: set<Pubkey>)
    requires Inv(db) && CanShrink(db, slot, zero)
    ensures Inv(Shrink(db, slot, zero))
  {
    ShrinkMatches(db, slot, zero);
    ShrinkStores(db, slot, zero);
    ShrinkNewest(db, slot, zero);
    ShrinkRecords(db, slot, zero);
    forall k: Pubkey ensures |Holders(Shrink(db, slot, zero).stores, k)| <= Ref(Shrink(db, slot, zero).refs, k) {
      ShrunkRef(db, slot, zero, k);
    }
  }

  // ---------------------------------------------------------------- flush

  /** Each key the batch has written has a rooted entry newer than the slots still to flush. */
  ghost predicate WrittenOk(index: Index, ever: set<Slot>, written: set<Pubkey>, slot: Slot, cleaned: Slot) {
    forall k | k in written :: Superseded(index, ever, (k, slot), cleaned)
  }

  predicate CanFlush(db: Db, slot: Slot) {
    slot in db.cache && slot in db.ever
  }

  lemma FlushMatches(db: Db, slot: Slot, written: set<Pubkey>, clean: bool, mark: bool)
    requires CanFlush(db, slot)
    requires CacheMatches(db.index, db.cache)
    ensures CacheMatches(FlushSlot(db, slot, written, clean, mark).index, db.cache - {slot})
  {
    var db' := FlushSlot(db, slot, written, clean, mark);
    forall x, k | x in db.cache - {slot} && k in (db.cache - {slot})[x]
      ensures (k, x) in db'.index && db'.index[(k, x)].Cached? {
      assert x in db.cache && k in db.cache[x];
    }
  }

  lemma FlushStored(db: Db, slot: Slot, written: set<Pubkey>, clean: bool, mark: bool)
    requires CanFlush(db, slot)
    requires CacheMatches(db.index, db.cache) && StoredMatches(db.index, db.stores)
    requires StoresOk(db.stores, db.cache, db.ever, db.history)
    ensures var db' := FlushSlot(db, slot, written, clean, mark); StoredMatches(db'.index, db'.stores)
  {
    var db' := FlushSlot(db, slot, written, clean, mark);
    forall p | p in db'.index && db'.index[p].Stored? ensures HoldsKey(db'.stores, p.1, p.0) {
      assert p == (p.0, p.1);
    }
  }

  lemma FlushStores(db: Db, slot: Slot, written: set<Pubkey>, clean: bool, mark: bool)
    requires CanFlush(db, slot)
    requires StoresOk(db.stores, db.cache, db.ever, db.history) && CacheHistory(db.cache, db.ever, db.history)
    ensures var db' := FlushSlot(db, slot, written, clean, mark);
      && StoresOk(db'.stores, db'.cache, db.ever, db.history) && CacheHistory(db'.cache, db.ever, db.history)
  {}

  lemma FlushRootsEntry(db: Db, slot: Slot, written: set<Pubkey>, clean: bool, mark: bool, p: Pair)
    requires CanFlush(db, slot)
    requires CacheMatches(db.index, db.cache) && StoredMatches(db.index, db.stores)
    requires StoresOk(db.stores, db.cache, db.ever, db.history)
    requires p in FlushedIndex(db, slot, written, clean, mark)
    ensures p in db.index && p.1 !in FlushKills(db, slot, written, clean, mark)
    ensures p.1 == slot ==> Writes(db.cache, slot, written, clean) != {}
  {
    if p.1 == slot { assert p.0 in Writes(db.cache, slot, written, clean); }
  }

  lemma FlushRoots(db: Db, slot: Slot, written: set<Pubkey>, clean: bool, mark: bool)
    requires CanFlush(db, slot)
    requires CacheMatches(db.index, db.cache) && StoredMatches(db.index, db.stores)
    requires StoresOk(db.stores, db.cache, db.ever, db.history)
    requires RootsOk(db.index, db.roots, db.cache, db.ever)
    ensures var db' := FlushSlot(db, slot, written, clean, mark); RootsOk(db'.index, db'.roots, db'.cache, db.ever)
  {
    var dead := FlushKills(db, slot, written, clean, mark);
    assert forall x | x in dead :: x in db.stores;
    hide FlushKills, FlushedIndex, Writes, FlushReclaims;
    var db' := FlushSlot(db, slot, written, clean, mark);
    forall p | p in db'.index && p.1 in db.ever ensures p.1 in db'.roots {
      FlushRootsEntry(db, slot, written, clean, mark, p);
    }
  }

  /** What a flush takes out of the index has a newer rooted entry left. */
  lemma FlushSupersedes(db: Db, slot: Slot, written: set<Pubkey>, clean: bool, mark: bool, p: Pair)
    requires CanFlush(db, slot) && WrittenOk(db.index, db.ever, written, slot, db.cleaned)
    requires CacheMatches(db.index, db.cache)
    requires p in db.index && p !in FlushSlot(db, slot, written, clean, mark).index
    ensures Superseded(FlushSlot(db, slot, written, clean, mark).index, db.ever, p,
      FlushSlot(db, slot, written, clean, mark).cleaned)
  {
    var db' := FlushSlot(db, slot, written, clean, mark);
    if p.1 == slot && p.0 in Skipped(db.cache, slot, written, clean) {
      assert p == (p.0, slot);
      var q :| q in db.index && q.0 == p.0 && q.1 in db.ever && slot < q.1 <= db.cleaned;
      assert q in db'.index;
    } else {
      assert (p.0, slot) in db.index;
      assert (p.0, slot) in db'.index;
    }
  }

  lemma FlushNewest(db: Db, slot: Slot, written: set<Pubkey>, clean: bool, mark: bool)
    requires CanFlush(db, slot) && WrittenOk(db.index, db.ever, written, slot, db.cleaned)
    requires CacheMatches(db.index, db.cache) && StoredMatches(db.index, db.stores)
    requires StoresOk(db.stores, db.cache, db.ever, db.history) && CacheHistory(db.cache, db.ever, db.history)
    requires NewestIndexed(db.index, db.ever, db.history, db.cleaned)
    ensures NewestIndexed(FlushSlot(db, slot, written, clean, mark).index, db.ever, db.history,
      FlushSlot(db, slot, written, clean, mark).cleaned)
  {
    var db' := FlushSlot(db, slot, written, clean, mark);
    forall p | p in db.index && p !in db'.index ensures Superseded(db'.index, db.ever, p, db'.cleaned) {
      FlushSupersedes(db, slot, written, clean, mark, p);
    }
    forall p | p in db'.index ensures p.1 in db.history && p.0 in db.history[p.1] { EntryWritten(db, p); }
    NewestStays(db.index, db'.index, db.ever, db.history, db.cleaned, db'.cleaned);
  }

  lemma FlushRecords(db: Db, slot: Slot, written: set<Pubkey>, clean: bool, mark: bool)
    requires CanFlush(db, slot) && WrittenOk(db.index, db.ever, written, slot, db.cleaned)
    requires CacheMatches(db.index, db.cache)
    requires RecordsCovered(db.index, db.stores, db.ever)
    ensures var db' := FlushSlot(db, slot, written, clean, mark); RecordsCovered(db'.index, db'.stores, db.ever)
  {
    var db' := FlushSlot(db, slot, written, clean, mark);
    forall p | p in db.index && p !in db'.index ensures Superseded(db'.index, db.ever, p, db'.cleaned) {
      FlushSupersedes(db, slot, written, clean, mark, p);
    }
    forall x: Slot, k: Pubkey | HoldsKey(db'.stores, x, k) && !HoldsKey(db.stores, x, k)
      ensures Covered(db'.index, db.ever, k, x)
    {
      assert x == slot && (k, slot) in db'.index;
    }
    RecordsStayCovered(db.index, db'.index, db.stores, db'.stores, db.ever, db'.cleaned);
  }

  /** The storages that hold a key after the flush. */
  lemma FlushHolds(db: Db, slot: Slot, written: set<Pubkey>, clean: bool, mark: bool, k: Pubkey, x: Slot)
    requires CanFlush(db, slot) && slot !in db.stores
    ensures HoldsKey(FlushSlot(db, slot, written, clean, mark).stores, x, k) <==>
      if x == slot then k in Writes(db.cache, slot, written, clean)
      else HoldsKey(db.stores, x, k) && (k, x) !in FlushReclaims(db, slot, written, clean, mark)
           && x !in FlushKills(db, slot, written, clean, mark)
  {
    hide FlushKills, FlushedIndex;
    var outdated := FlushReclaims(db, slot, written, clean, mark);
    assert k in KeysAt(outdated, x) <==> (k, x) in outdated;
  }

  lemma FlushHolders(db: Db, slot: Slot, written: set<Pubkey>, clean: bool, mark: bool, k: Pubkey)
    requires CanFlush(db, slot) && slot !in db.stores
    ensures Holders(FlushSlot(db, slot, written, clean, mark).stores, k) ==
      Holders(db.stores, k) - SlotsOf(FlushReclaims(db, slot, written, clean, mark), k)
        - FlushKills(db, slot, written, clean, mark) + if k in Writes(db.cache, slot, written, clean) then {slot}
          else {}
  {
    hide FlushSlot, FlushKills, FlushReclaims, Writes;
    var stores', write := FlushSlot(db, slot, written, clean, mark).stores, Writes(db.cache, slot, written, clean);
    var after := Holders(db.stores, k) - SlotsOf(FlushReclaims(db, slot, written, clean, mark), k)
        - FlushKills(db, slot, written, clean, mark) + if k in write then {slot} else {};
    forall x: Slot ensures x in Holders(stores', k) <==> x in after {
      FlushHolds(db, slot, written, clean, mark, k, x);
    }
  }

  lemma FlushedRef(db: Db, slot: Slot, written: set<Pubkey>, clean: bool, mark: bool, k: Pubkey)
    ensures Ref(FlushSlot(db, slot, written, clean, mark).refs, k) ==
      if k in Writes(db.cache, slot, written, clean) then
        Ref(db.refs, k) + 1 - |SlotsOf(FlushReclaims(db, slot, written, clean, mark), k)|
      else Ref(db.refs, k)
  {}

  /** What is reclaimed of a key was held, and is reclaimed only if the key is written. */
  lemma ReclaimedWasHeld(db: Db, slot: Slot, written: set<Pubkey>, clean: bool, mark: bool, k: Pubkey)
    requires StoredMatches(db.index, db.stores)
    ensures var lost := SlotsOf(FlushReclaims(db, slot, written, clean, mark), k);
      lost <= Holders(db.stores, k) && (lost != {} ==> k in Writes(db.cache, slot, written, clean))
  {
    var outdated := FlushReclaims(db, slot, written, clean, mark);
    forall x | x in SlotsOf(outdated, k)
      ensures x in Holders(db.stores, k) && k in Writes(db.cache, slot, written, clean) {
      assert (k, x) in outdated;
    }
  }

  /** The surplus of a key's reference count grows by the records that go with a storage without being reclaimed. */
  lemma FlushRef(db: Db, slot: Slot, written: set<Pubkey>, clean: bool, mark: bool, k: Pubkey)
    requires CanFlush(db, slot) && slot !in db.stores
    requires StoredMatches(db.index, db.stores)
    ensures var db' := FlushSlot(db, slot, written, clean, mark);
      Ref(db'.refs, k) - |Holders(db'.stores, k)| == Ref(db.refs, k) - |Holders(db.stores, k)| +
        |Holders(db.stores, k) * FlushKills(db, slot, written, clean,
          mark) - SlotsOf(FlushReclaims(db, slot, written, clean, mark), k)|
  {
    FlushHolders(db, slot, written, clean, mark, k);
    FlushedRef(db, slot, written, clean, mark, k);
    ReclaimedWasHeld(db, slot, written, clean, mark, k);
    var before, lost, dead := Holders(db.stores, k), SlotsOf(FlushReclaims(db, slot, written, clean, mark), k),
      FlushKills(db, slot, written, clean, mark);
    assert slot !in before;
    hide FlushSlot, FlushKills, FlushReclaims, Writes, Holders;
    LostHolders(before, lost, dead, slot);
  }

  lemma LostHolders(before: set<Slot>, lost: set<Slot>, dead: set<Slot>, slot: Slot)
    requires lost <= before && slot !in before
    ensures |before - lost - dead| == |before| - |lost| - |before * dead - lost|
    ensures |before - lost - dead + {slot}| == |before| - |lost| - |before * dead - lost| + 1
    ensures before - lost - dead + {} == before - lost - dead
  {
    var rest := before - lost;
    assert before == rest + lost;
    assert rest == (rest - dead) + (before * dead - lost);
  }

  lemma FlushSlotKeeps(db: Db, slot: Slot, written: set<Pubkey>, clean: bool, mark: bool)
    requires Core(db) && CanFlush(db, slot) && WrittenOk(db.index, db.ever, written, slot, db.cleaned)
    ensures Core(FlushSlot(db, slot, written, clean, mark))
  {
    FlushMatches(db, slot, written, clean, mark);
    FlushStored(db, slot, written, clean, mark);
    FlushStores(db, slot, written, clean, mark);
    FlushRoots(db, slot, written, clean, mark);
    FlushNewest(db, slot, written, clean, mark);
    FlushRecords(db, slot, written, clean, mark);
    var db' := FlushSlot(db, slot, written, clean, mark);
    forall k: Pubkey ensures |Holders(db'.stores, k)| <= Ref(db'.refs, k) {
      FlushRef(db, slot, written, clean, mark, k);
    }
  }

  /** What the batch has written stays newer than the slots still to flush. */
  lemma FlushWritten(db: Db, slot: Slot, written: set<Pubkey>, clean: bool, mark: bool, next: Slot)
    requires CanFlush(db, slot) && WrittenOk(db.index, db.ever, written, slot, db.cleaned) && next < slot
    requires CacheMatches(db.index, db.cache)
    ensures WrittenOk(FlushSlot(db, slot, written, clean, mark).index, db.ever,
      NowWritten(db.cache, slot, written, clean), next,
                      FlushSlot(db, slot, written, clean, mark).cleaned)
  {
    var index', cleaned' := FlushSlot(db, slot, written, clean, mark).index,
      FlushSlot(db, slot, written, clean, mark).cleaned;
    forall k | k in NowWritten(db.cache, slot, written, clean)
      ensures Superseded(index', db.ever, (k, next), cleaned') {
      if k in written {
        var q :| q in db.index && q.0 == k && q.1 in db.ever && slot < q.1 <= db.cleaned;
        assert q in index';
      } else {
        assert (k, slot) in db.index;
        assert (k, slot) in index';
      }
    }
  }

  lemma {:induction false} FlushSlotsKeep(db: Db, slots: seq<Slot>, written: set<Pubkey>, clean: Option<Slot>,
                                          mark: bool)
    requires Core(db)
    requires forall i, j :: 0 <= i < j < |slots| ==> slots[i] > slots[j]
    requires forall x | x in slots :: CanFlush(db, x)
    requires slots != [] ==> WrittenOk(db.index, db.ever, written, slots[0], db.cleaned)
    ensures var db' := FlushSlots(db, slots, written, clean, mark);
      && Core(db') && db'.ever == db.ever && db'.history == db.history
      && (forall x :: x in db'.cache <==> x in db.cache && x !in slots)
      && (forall x | x in db'.stores :: x in db.stores || x in slots)
    decreases slots
  {
    if slots != [] {
      var slot, cleans := slots[0], Cleans(clean, slots[0]);
      var db1, written1 := FlushSlot(db, slot, written, cleans, mark), NowWritten(db.cache, slot, written, cleans);
      FlushSlotKeeps(db, slot, written, cleans, mark);
      if |slots| > 1 { FlushWritten(db, slot, written, cleans, mark, slots[1]); }
      assert forall x | x in slots[1..] :: x in slots && x < slot;
      FlushSlotsKeep(db1, slots[1..], written1, clean, mark);
      assert forall x :: x in slots <==> x == slot || x in slots[1..];
    }
  }

  lemma FlushKeeps(db: Db, slots: seq<Slot>, upTo: Slot, clean: Option<Slot>, mark: bool)
    requires Inv(db) && IsBatch(db, slots, upTo)
    ensures Inv(FlushSlots(db, slots, {}, clean, mark))
  {
    FlushSlotsKeep(db, slots, {}, clean, mark);
  }
}
