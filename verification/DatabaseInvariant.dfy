/**
 What every operation of the accounts database keeps.
 */
module DatabaseInvariant {
  import opened Types
  import opened Database

  // ---------------------------------------------------------------- the invariant

  /** Index entries in the cache are exactly the cached accounts. */
  ghost predicate CacheMatches(index: Index, cache: Cache) {
    && (forall p | p in index && index[p].Cached? :: p.1 in cache && p.0 in cache[p.1])
    && (forall x, k | x in cache && k in cache[x] :: (k, x) in index && index[(k, x)].Cached?)
  }

  /** A stored entry has its record. */
  ghost predicate StoredMatches(index: Index, stores: Stores) {
    forall p | p in index && index[p].Stored? :: HoldsKey(stores, p.1, p.0)
  }

  /** Storages hold what was stored in their slot, which is rooted and out of the cache. */
  ghost predicate StoresOk(stores: Stores, cache: Cache, ever: set<Slot>, history: Cache) {
    forall x | x in stores ::
      && x in ever && x !in cache && x in history
      && forall k | k in stores[x].accounts :: k in history[x] && history[x][k] == stores[x].accounts[k]
  }

  ghost predicate CacheHistory(cache: Cache, ever: set<Slot>, history: Cache) {
    && (forall x | x in cache :: x in history && history[x] == cache[x])
    && (forall x | x in history && x !in ever :: x in cache)
  }

  ghost predicate RootsOk(index: Index, roots: set<Slot>, cache: Cache, ever: set<Slot>) {
    && roots <= ever
    && (forall x | x in cache && x in ever :: x in roots)
    && (forall p | p in index && p.1 in ever :: p.1 in roots)
  }

  /** Flushes go up to a bound, so cached roots are newer than storages. */
  ghost predicate FlushOrder(stores: Stores, cache: Cache, ever: set<Slot>) {
    forall x, y | x in cache && x in ever && y in stores :: y < x
  }

  /** The newest rooted write of the key up to `bound`. */
  ghost predicate IsNewestWrite(history: Cache, ever: set<Slot>, k: Pubkey, m: Slot, bound: Slot) {
    && m in ever && m <= bound && m in history && k in history[m]
    && forall x | x in ever && x <= bound && x in history && k in history[x] :: x <= m
  }

  ghost predicate NoRootedEntry(index: Index, ever: set<Slot>, k: Pubkey, bound: Slot) {
    forall p | p in index && p.0 == k && p.1 in ever :: p.1 > bound
  }

  /** From the cleaned root on, the newest rooted write up to any bound is indexed, or it is zero-lamport and
      no rooted version up to the bound is indexed. */
  ghost predicate NewestIndexed(index: Index, ever: set<Slot>, history: Cache, cleaned: Slot) {
    forall k, m, bound | cleaned <= bound && IsNewestWrite(history, ever, k, m, bound) ::
      (k, m) in index || (history[m][k].IsZeroLamport() && NoRootedEntry(index, ever, k, bound))
  }

  ghost predicate Covered(index: Index, ever: set<Slot>, k: Pubkey, x: Slot) {
    exists p | p in index :: p.0 == k && p.1 in ever && x <= p.1
  }

  /** No record is newer than the newest rooted version in the index. */
  ghost predicate RecordsCovered(index: Index, stores: Stores, ever: set<Slot>) {
    forall x, k | HoldsKey(stores, x, k) :: Covered(index, ever, k, x)
  }

  /** The reference count is at least the number of storages that hold the key. */
  ghost predicate RefsCover(refs: Refs, stores: Stores) {
    forall k :: |Holders(stores, k)| <= Ref(refs, k)
  }

  /** Everything but the order of flushes, which a batch in progress breaks. */
  ghost predicate Core(db: Db) {
    && CacheMatches(db.index, db.cache)
    && StoredMatches(db.index, db.stores)
    && StoresOk(db.stores, db.cache, db.ever, db.history)
    && CacheHistory(db.cache, db.ever, db.history)
    && RootsOk(db.index, db.roots, db.cache, db.ever)
    && NewestIndexed(db.index, db.ever, db.history, db.cleaned)
    && RecordsCovered(db.index, db.stores, db.ever)
    && RefsCover(db.refs, db.stores)
  }

  ghost predicate Inv(db: Db) {
    Core(db) && FlushOrder(db.stores, db.cache, db.ever)
  }

  // ---------------------------------------------------------------- entries that leave the index

  /** An entry may leave the index when a newer rooted one up to `limit` stays. */
  ghost predicate Superseded(index': Index, ever: set<Slot>, p: Pair, limit: Slot) {
    exists q | q in index' :: q.0 == p.0 && q.1 in ever && p.1 < q.1 <= limit
  }

  lemma NewestStays(index: Index, index': Index, ever: set<Slot>, history: Cache, cleaned: Slot, cleaned': Slot)
    requires NewestIndexed(index, ever, history, cleaned) && cleaned <= cleaned'
    requires forall p | p in index' :: p in index
    requires forall p | p in index && p !in index' && p.1 in ever :: Superseded(index', ever, p, cleaned')
    requires forall p | p in index' && p.1 in ever :: p.1 in history && p.0 in history[p.1]
    ensures NewestIndexed(index', ever, history, cleaned')
  {
    forall k: Pubkey, m: Slot, bound: Slot | cleaned' <= bound && IsNewestWrite(history, ever, k, m, bound)
      ensures (k, m) in index' || (history[m][k].IsZeroLamport() && NoRootedEntry(index', ever, k, bound))
    {
      if (k, m) in index {
        assert (k, m) !in index' ==> Superseded(index', ever, (k, m), cleaned');
      }
    }
  }

  lemma RecordsStayCovered(index: Index, index': Index, stores: Stores, stores': Stores, ever: set<Slot>, limit: Slot)
    requires RecordsCovered(index, stores, ever)
    requires forall x, k | HoldsKey(stores', x, k) :: HoldsKey(stores, x, k) || Covered(index', ever, k, x)
    requires forall p | p in index && p !in index' && p.1 in ever :: Superseded(index', ever, p, limit)
    ensures RecordsCovered(index', stores', ever)
  {
    forall x: Slot, k: Pubkey | HoldsKey(stores', x, k) && HoldsKey(stores, x, k) ensures Covered(index', ever, k, x) {
      var p :| p in index && p.0 == k && p.1 in ever && x <= p.1;
      if p !in index' {
        var q :| q in index' && q.0 == p.0 && q.1 in ever && p.1 < q.1;
      }
    }
  }
}
