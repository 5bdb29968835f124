/**
 The set of candidates that clean's worklist computes is one the database can purge.
 */
module CleanPurge {
  import opened Types
  import Sets
  import opened Database
  import opened DatabaseInvariant
  import CleanDependencies

  /** The cleaning info of zero-lamport keys: their rooted versions up to the clean root, and their reference counts. */
  ghost function CandidatesOf(db: Db, keys: set<Pubkey>, bound: Slot): CleanDependencies.Candidates
    requires RefsCover(db.refs, db.stores)
  {
    map k | k in keys :: CandidateOf(db, keys, bound, k)
  }

  ghost function CandidateOf(db: Db, keys: set<Pubkey>, bound: Slot, k: Pubkey): CleanDependencies.CleaningInfo
    requires RefsCover(db.refs, db.stores)
  {
    assert |Holders(db.stores, k)| <= Ref(db.refs, k);
    CleanDependencies.CleaningInfo(SlotsOf(RootedUpTo(db.index, db.roots, keys, bound), k), Ref(db.refs, k))
  }

  /** The keys are zero-lamport up to the clean root, and those versions are flushed. */
  ghost predicate AreCandidates(db: Db, keys: set<Pubkey>, bound: Slot) {
    forall p | p in RootedUpTo(db.index, db.roots, keys, bound) ::
      db.index[p].Stored? && (IsNewestRooted(db.index, db.roots, p, bound) ==> IsZero(db.stores, p))
  }

  lemma CandidatesAreAlive(db: Db, keys: set<Pubkey>, bound: Slot, x: Slot)
    requires Core(db) && AreCandidates(db, keys, bound)
    ensures CleanDependencies.KeysIn(CandidatesOf(db, keys, bound), x) <= AliveAt(db.index, x)
  {
    forall k | k in CleanDependencies.KeysIn(CandidatesOf(db, keys, bound), x) ensures k in AliveAt(db.index, x) {
      assert (k, x) in RootedUpTo(db.index, db.roots, keys, bound);
    }
  }

  /** The store counts never underflow. */
  lemma CountsCoverCandidates(db: Db, keys: set<Pubkey>, bound: Slot)
    requires Core(db) && AreCandidates(db, keys, bound)
    ensures CleanDependencies.CountsCover(CandidatesOf(db, keys, bound), AliveCounts(db.index, db.stores))
  {
    var candidates, counts := CandidatesOf(db, keys, bound), AliveCounts(db.index, db.stores);
    forall k, x | k in candidates && x in candidates[k].slots
      ensures x in counts && counts[x] >= |CleanDependencies.KeysIn(candidates, x)|
    {
      assert (k, x) in RootedUpTo(db.index, db.roots, keys, bound);
      CandidatesAreAlive(db, keys, bound, x);
      Sets.SubsetSize(CleanDependencies.KeysIn(candidates, x), AliveAt(db.index, x));
    }
  }

  /** A store of a closed set has no alive account outside the set. */
  lemma ClosedStore(db: Db, keys: set<Pubkey>, bound: Slot, purge: set<Pubkey>, p: Pair, q: Pair)
    requires Core(db) && AreCandidates(db, keys, bound)
    requires CleanDependencies.Closed(CandidatesOf(db, keys, bound), AliveCounts(db.index, db.stores), purge)
    requires p in RootedUpTo(db.index, db.roots, purge, bound) && q in db.index && q.1 == p.1
    ensures q.0 in purge && q.1 in db.roots
  {
    var candidates, x := CandidatesOf(db, keys, bound), p.1;
    assert p.0 in candidates && p == (p.0, x) && p in RootedUpTo(db.index, db.roots, keys, bound);
    assert x in candidates[p.0].slots;
    assert HoldsKey(db.stores, x, p.0);
    CandidatesAreAlive(db, keys, bound, x);
    Sets.SameSize(CleanDependencies.KeysIn(candidates, x), AliveAt(db.index, x));
    assert q == (q.0, x) && q.0 in AliveAt(db.index, x);
  }

  /** What the worklist finds can be purged. */
  lemma ClosedCanBePurged(db: Db, keys: set<Pubkey>, bound: Slot, purge: set<Pubkey>)
    requires Core(db) && AreCandidates(db, keys, bound)
    requires CleanDependencies.Closed(CandidatesOf(db, keys, bound), AliveCounts(db.index, db.stores), purge)
    ensures CanPurgeZero(db, purge, bound)
  {
    var candidates := CandidatesOf(db, keys, bound);
    var gone := RootedUpTo(db.index, db.roots, purge, bound);
    forall p | p in gone
      ensures db.index[p].Stored? && |SlotsOf(gone, p.0)| == Ref(db.refs, p.0)
      ensures IsNewestRooted(db.index, db.roots, p, bound) ==> IsZero(db.stores, p)
    {
      assert p.0 in candidates && p in RootedUpTo(db.index, db.roots, keys, bound);
      SameSlots(db, keys, bound, purge, p.0);
    }
    forall p, q | p in gone && q in db.index && q.1 == p.1 ensures q in gone {
      ClosedStore(db, keys, bound, purge, p, q);
    }
  }

  lemma SameSlots(db: Db, keys: set<Pubkey>, bound: Slot, purge: set<Pubkey>, k: Pubkey)
    requires k in keys && k in purge
    ensures SlotsOf(RootedUpTo(db.index, db.roots, purge, bound), k) ==
      SlotsOf(RootedUpTo(db.index, db.roots, keys, bound), k)
  {
    var a, b := RootedUpTo(db.index, db.roots, purge, bound), RootedUpTo(db.index, db.roots, keys, bound);
    forall x: Slot ensures (k, x) in a <==> (k, x) in b {}
  }

  // ---------------------------------------------------------------- a whole clean

  /** The key's newest rooted version up to the clean root is zero-lamport. */
  ghost predicate IsZeroKey(db: Db, bound: Slot, k: Pubkey) {
    exists x :: IsNewestRooted(db.index, db.roots, (k, x), bound) && IsZero(db.stores, (k, x))
  }

  ghost function ZeroKeys(db: Db, keys: set<Pubkey>, bound: Slot): set<Pubkey> {
    set k | k in keys && IsZeroKey(db, bound, k)
  }

  /** The roots up to the clean root are out of the cache. */
  ghost predicate Flushed(cache: Cache, ever: set<Slot>, bound: Slot) {
    forall x | x in cache && x in ever :: x > bound
  }

  lemma ZeroKeysAreCandidates(db: Db, keys: set<Pubkey>, bound: Slot)
    requires CacheMatches(db.index, db.cache) && db.roots <= db.ever && Flushed(db.cache, db.ever, bound)
    ensures AreCandidates(db, ZeroKeys(db, keys, bound), bound)
  {
    forall p: Pair | p in RootedUpTo(db.index, db.roots, ZeroKeys(db, keys, bound), bound)
      ensures db.index[p].Stored? && (IsNewestRooted(db.index, db.roots, p, bound) ==> IsZero(db.stores, p))
    {
      assert IsZeroKey(db, bound, p.0);
      var x: Slot :| IsNewestRooted(db.index, db.roots, (p.0, x), bound) && IsZero(db.stores, (p.0, x));
      assert p.1 <= x;
    }
  }

  /** Once the outdated versions are gone, a key has one rooted version up to the clean root. */
  lemma OneRootedVersion(db: Db, keys: set<Pubkey>, bound: Slot, k: Pubkey, x: Slot, y: Slot)
    requires CacheMatches(db.index, db.cache) && db.roots <= db.ever && Flushed(db.cache, db.ever, bound)
    requires var older := CleanOlder(db, keys, bound);
      var rooted := RootedUpTo(older.index, older.roots, keys, bound); (k, x) in rooted && (k, y) in rooted
    ensures x == y
  {
    StaysIsNewest(db, keys, bound, (k, x));
    StaysIsNewest(db, keys, bound, (k, y));
  }

  lemma StaysIsNewest(db: Db, keys: set<Pubkey>, bound: Slot, p: Pair)
    requires CacheMatches(db.index, db.cache) && db.roots <= db.ever && Flushed(db.cache, db.ever, bound)
    requires var older := CleanOlder(db, keys, bound); p in RootedUpTo(older.index, older.roots, keys, bound)
    ensures IsNewestRooted(db.index, db.roots, p, bound)
  {
    assert p in db.index && p !in Older(db.index, db.roots, keys, bound);
    assert db.index[p].Stored?;
  }

  lemma OneVersionEach(db: Db, keys: set<Pubkey>, bound: Slot)
    requires CacheMatches(db.index, db.cache) && db.roots <= db.ever && Flushed(db.cache, db.ever, bound)
    requires RefsCover(CleanOlder(db, keys, bound).refs, CleanOlder(db, keys, bound).stores)
    ensures var older := CleanOlder(db, keys, bound);
      CleanDependencies.OneVersionEach(CandidatesOf(older, ZeroKeys(older, keys, bound), bound))
  {
    var older := CleanOlder(db, keys, bound);
    var zero := ZeroKeys(older, keys, bound);
    var candidates := CandidatesOf(older, zero, bound);
    forall k, x, y | k in candidates && x in candidates[k].slots && y in candidates[k].slots ensures x == y {
      assert (k, x) in RootedUpTo(older.index, older.roots, zero, bound);
      assert (k, y) in RootedUpTo(older.index, older.roots, zero, bound);
      OneRootedVersion(db, keys, bound, k, x, y);
    }
  }

  /** What the incremental-snapshot filter leaves of a set that can be purged together still can be. */
  lemma FilterNeverSplitsStores(db: Db, keys: set<Pubkey>, bound: Slot, purge: set<Pubkey>, snapshot: Slot)
    requires CacheMatches(db.index, db.cache) && db.roots <= db.ever && Flushed(db.cache, db.ever, bound)
    requires var older := CleanOlder(db, keys, bound);
      && RefsCover(older.refs, older.stores)
      && CleanDependencies.Closed(CandidatesOf(older, ZeroKeys(older, keys, bound), bound),
           AliveCounts(older.index, older.stores), purge)
    ensures var older := CleanOlder(db, keys, bound);
      var candidates := CandidatesOf(older, ZeroKeys(older, keys, bound), bound);
      CleanDependencies.Closed(candidates, AliveCounts(older.index, older.stores),
        CleanDependencies.SnapshotFilter(candidates, purge, snapshot))
  {
    var older := CleanOlder(db, keys, bound);
    OneVersionEach(db, keys, bound);
    hide CleanOlder, CandidatesOf, AliveCounts, ZeroKeys;
    CleanDependencies.SingleVersionsStayClosed(CandidatesOf(older, ZeroKeys(older, keys, bound), bound),
      AliveCounts(older.index, older.stores), purge, snapshot);
  }

  /** A candidate's slot is that of its newest rooted version up to the clean root, before the outdated ones went. */
  lemma CandidateSlot(db: Db, keys: set<Pubkey>, bound: Slot, k: Pubkey, x: Slot)
    requires Core(db) && Flushed(db.cache, db.ever, bound)
    requires var older := CleanOlder(db, keys, bound);
      RefsCover(older.refs, older.stores) && k in ZeroKeys(older, keys, bound)
    ensures var older := CleanOlder(db, keys, bound);
      x in CandidateOf(older, ZeroKeys(older, keys, bound), bound, k).slots <==>
        IsNewestRooted(db.index, db.roots, (k, x), bound)
  {
    var older := CleanOlder(db, keys, bound);
    var zero := ZeroKeys(older, keys, bound);
    assert x in CandidateOf(older, zero, bound, k).slots <==>
      (k, x) in RootedUpTo(older.index, older.roots, zero, bound);
    if (k, x) in RootedUpTo(older.index, older.roots, zero, bound) {
      StaysIsNewest(db, keys, bound, (k, x));
    }
    if IsNewestRooted(db.index, db.roots, (k, x), bound) { NewestIsSpared(db, keys, bound, k, x); }
  }

  lemma NewestIsSpared(db: Db, keys: set<Pubkey>, bound: Slot, k: Pubkey, x: Slot)
    requires IsNewestRooted(db.index, db.roots, (k, x), bound)
    ensures var older := CleanOlder(db, keys, bound); (k, x) in older.index && x in older.roots
  {
    assert (k, x) !in Older(db.index, db.roots, keys, bound) && (k, x).1 == x;
  }

  /** Which keys wait for the next full snapshot, by the index before the clean: those whose newest rooted version up to
      the clean root is above the latest one. */
  lemma CleanWaits(db: Db, keys: set<Pubkey>, bound: Slot, snapshot: Option<Slot>, kept: set<Pubkey>,
                   purge: set<Pubkey>, later: set<(Slot, Pubkey)>)
    requires Core(db) && Flushed(db.cache, db.ever, bound)
    requires var older := CleanOlder(db, keys, bound);
      && RefsCover(older.refs, older.stores) && kept <= ZeroKeys(older, keys, bound)
      && CleanDependencies.Waits(CandidatesOf(older, ZeroKeys(older, keys, bound), bound), kept, bound, snapshot, purge,
           later)
    ensures snapshot.None? || bound <= snapshot.value ==> purge == kept && later == {}
    ensures snapshot.Some? ==>
      forall p | p in db.index && p.0 in purge && p.1 in db.roots && p.1 <= bound :: p.1 <= snapshot.value
    ensures snapshot.Some? && snapshot.value < bound ==>
      forall k: Pubkey, x: Slot :: (x, k) in later <==>
        && k in kept && (k, x) in db.index && x in db.roots && snapshot.value < x <= bound
        && forall y: Slot | (k, y) in db.index && y in db.roots && y <= bound :: y <= x
    ensures forall k | k in kept && k !in purge :: exists x: Slot :: (x, k) in later
  {
    var older := CleanOlder(db, keys, bound);
    var zero := ZeroKeys(older, keys, bound);
    var candidates := CandidatesOf(older, zero, bound);
    forall k: Pubkey, x: Slot | k in kept
      ensures x in candidates[k].slots <==> IsNewestRooted(db.index, db.roots, (k, x), bound)
    {
      CandidateSlot(db, keys, bound, k, x);
    }
    hide CleanOlder, ZeroKeys, CandidatesOf, IsNewestRooted, Core, CleanDependencies.Waits;
    WaitsByIndex(db.index, db.roots, candidates, bound, snapshot, kept, purge, later);
  }

  lemma WaitsByIndex(index: Index, roots: set<Slot>, candidates: CleanDependencies.Candidates, bound: Slot,
                     snapshot: Option<Slot>, kept: set<Pubkey>, purge: set<Pubkey>, later: set<(Slot, Pubkey)>)
    requires kept <= candidates.Keys && CleanDependencies.Waits(candidates, kept, bound, snapshot, purge, later)
    requires forall k: Pubkey, x: Slot | k in kept ::
      x in candidates[k].slots <==> IsNewestRooted(index, roots, (k, x), bound)
    ensures snapshot.None? || bound <= snapshot.value ==> purge == kept && later == {}
    ensures snapshot.Some? ==>
      forall p | p in index && p.0 in purge && p.1 in roots && p.1 <= bound :: p.1 <= snapshot.value
    ensures snapshot.Some? && snapshot.value < bound ==>
      forall k: Pubkey, x: Slot :: (x, k) in later <==>
        && k in kept && (k, x) in index && x in roots && snapshot.value < x <= bound
        && forall y: Slot | (k, y) in index && y in roots && y <= bound :: y <= x
    ensures forall k | k in kept && k !in purge :: exists x: Slot :: (x, k) in later
  {
    hide IsNewestRooted;
    if snapshot.Some? && snapshot.value < bound {
      forall p | p in index && p.0 in purge && p.1 in roots && p.1 <= bound ensures p.1 <= snapshot.value {
        var x := HasNewestRooted(index, roots, p, bound);
      }
      forall k: Pubkey, x: Slot
        ensures (x, k) in later <==>
          && k in kept && (k, x) in index && x in roots && snapshot.value < x <= bound
          && forall y: Slot | (k, y) in index && y in roots && y <= bound :: y <= x
      {
        NewestByPairs(index, roots, k, x, bound);
        if k in kept && x > snapshot.value && IsNewestRooted(index, roots, (k, x), bound) {
          forall y | y in candidates[k].slots ensures y <= x { OnlyNewest(index, roots, k, x, y, bound); }
        }
      }
    }
  }

  lemma NewestByPairs(index: Index, roots: set<Slot>, k: Pubkey, x: Slot, bound: Slot)
    ensures IsNewestRooted(index, roots, (k, x), bound) <==>
      && (k, x) in index && x in roots && x <= bound
      && forall y: Slot | (k, y) in index && y in roots && y <= bound :: y <= x
  {
    if IsNewestRooted(index, roots, (k, x), bound) {
      forall y: Slot | (k, y) in index && y in roots && y <= bound ensures y <= x { assert (k, y).1 == y; }
    } else if (k, x) in index && x in roots && x <= bound {
      var q :| q in index && q.0 == k && q.1 in roots && q.1 <= bound && q.1 > x;
      assert q == (k, q.1);
    }
  }

  lemma OnlyNewest(index: Index, roots: set<Slot>, k: Pubkey, x: Slot, y: Slot, bound: Slot)
    requires IsNewestRooted(index, roots, (k, x), bound) && IsNewestRooted(index, roots, (k, y), bound)
    ensures x == y
  {
    assert (k, x).1 <= (k, y).1 && (k, y).1 <= (k, x).1;
  }

  lemma HasNewestRooted(index: Index, roots: set<Slot>, p: Pair, bound: Slot) returns (x: Slot)
    requires p in index && p.1 in roots && p.1 <= bound
    ensures IsNewestRooted(index, roots, (p.0, x), bound) && p.1 <= x
  {
    var slots := SlotsOf(RootedUpTo(index, roots, {p.0}, bound), p.0);
    assert p == (p.0, p.1) && p.1 in slots;
    x := Sets.MaxOf(slots);
    forall q | q in index && q.0 == p.0 && q.1 in roots && q.1 <= bound ensures q.1 <= x {
      assert q == (p.0, q.1) && q.1 in slots;
    }
  }

  /** Clean takes every set of zero-lamport keys that can go together: each key is in as many storages as its reference
      count says, and no entry in those storages is of another key. */
  lemma CanGoTogether(db: Db, keys: set<Pubkey>, bound: Slot, kept: set<Pubkey>, group: set<Pubkey>)
    requires Core(db) && Flushed(db.cache, db.ever, bound)
    requires IsKept(db, keys, bound, kept) && group <= keys
    requires forall k | k in group :: exists x: Slot ::
      && (k, x) in db.index && x in db.roots && x <= bound
      && x in db.stores && k in db.stores[x].accounts && db.stores[x].accounts[k].lamports == 0
      && forall y: Slot | (k, y) in db.index && y in db.roots && y <= bound :: y <= x
    requires forall k | k in group ::
      |set x | x in db.roots && x <= bound && (k, x) in db.index| == if k in db.refs then db.refs[k] else 0
    requires forall k, x: Slot, j | k in group && (k, x) in db.index && x in db.roots && x <= bound &&
      (j, x) in db.index ::
      j in group
    ensures group <= kept
  {
    var zero := ZeroKeys(db, keys, bound);
    forall k | k in group ensures k in zero { IsZeroKeyByLamports(db, bound, k); }
    assert CleanDependencies.Closed(CandidatesOf(db, zero, bound), AliveCounts(db.index, db.stores), group) by {
      forall k | k in group ensures GroupMember(db, zero, bound, group, k) { MemberOfGroup(db, keys, bound, group, k); }
      hide CandidatesOf, AliveCounts;
    }
  }

  ghost predicate GroupMember(db: Db, zero: set<Pubkey>, bound: Slot, group: set<Pubkey>, k: Pubkey)
    requires RefsCover(db.refs, db.stores)
  {
    var candidates, counts := CandidatesOf(db, zero, bound), AliveCounts(db.index, db.stores);
    && k in candidates && |candidates[k].slots| == candidates[k].refCount
    && forall slot | slot in candidates[k].slots ::
         slot in counts && counts[slot] == |CleanDependencies.KeysIn(candidates, slot)| &&
         CleanDependencies.KeysIn(candidates, slot) <= group
  }

  lemma IsZeroKeyByLamports(db: Db, bound: Slot, k: Pubkey)
    requires exists x: Slot ::
      && (k, x) in db.index && x in db.roots && x <= bound
      && x in db.stores && k in db.stores[x].accounts && db.stores[x].accounts[k].lamports == 0
      && forall y: Slot | (k, y) in db.index && y in db.roots && y <= bound :: y <= x
    ensures IsZeroKey(db, bound, k)
  {
    var x: Slot :|
      && (k, x) in db.index && x in db.roots && x <= bound
      && x in db.stores && k in db.stores[x].accounts && db.stores[x].accounts[k].lamports == 0
      && forall y: Slot | (k, y) in db.index && y in db.roots && y <= bound :: y <= x;
    forall q | q in db.index && q.0 == k && q.1 in db.roots && q.1 <= bound ensures q.1 <= x { assert q == (k, q.1); }
    assert IsNewestRooted(db.index, db.roots, (k, x), bound) && IsZero(db.stores, (k, x));
  }

  lemma MemberOfGroup(db: Db, keys: set<Pubkey>, bound: Slot, group: set<Pubkey>, k: Pubkey)
    requires Core(db) && Flushed(db.cache, db.ever, bound) && k in group && group <= ZeroKeys(db, keys, bound)
    requires |set x | x in db.roots && x <= bound && (k, x) in db.index| == if k in db.refs then db.refs[k] else 0
    requires forall x: Slot, j | (k, x) in db.index && x in db.roots && x <= bound && (j, x) in db.index :: j in group
    ensures GroupMember(db, ZeroKeys(db, keys, bound), bound, group, k)
  {
    var zero := ZeroKeys(db, keys, bound);
    ZeroKeysAreCandidates(db, keys, bound);
    hide ZeroKeys;
    SlotsOfMember(db, zero, bound, k);
    forall x | x in CandidateOf(db, zero, bound, k).slots
      ensures x in db.stores
      ensures CleanDependencies.KeysIn(CandidatesOf(db, zero, bound), x) == AliveAt(db.index, x)
      ensures CleanDependencies.KeysIn(CandidatesOf(db, zero, bound), x) <= group
    {
      StoreOfMember(db, zero, bound, group, k, x);
    }
    hide CandidateOf, AliveAt, CleanDependencies.KeysIn, Core;
  }

  lemma SlotsOfMember(db: Db, zero: set<Pubkey>, bound: Slot, k: Pubkey)
    requires RefsCover(db.refs, db.stores) && k in zero
    ensures var info := CandidateOf(db, zero, bound, k);
      && info.slots == (set x | x in db.roots && x <= bound && (k, x) in db.index)
      && info.refCount == if k in db.refs then db.refs[k] else 0
  {
    var rooted := RootedUpTo(db.index, db.roots, zero, bound);
    forall x: Slot ensures x in SlotsOf(rooted, k) <==> x in db.roots && x <= bound && (k, x) in db.index {}
  }

  lemma StoreOfMember(db: Db, zero: set<Pubkey>, bound: Slot, group: set<Pubkey>, k: Pubkey, x: Slot)
    requires StoredMatches(db.index, db.stores) && RefsCover(db.refs, db.stores)
    requires AreCandidates(db, zero, bound) && group <= zero && k in group
    requires x in CandidateOf(db, zero, bound, k).slots
    requires forall j | (k, x) in db.index && x in db.roots && x <= bound && (j, x) in db.index :: j in group
    ensures x in db.stores
    ensures CleanDependencies.KeysIn(CandidatesOf(db, zero, bound), x) == AliveAt(db.index, x)
    ensures CleanDependencies.KeysIn(CandidatesOf(db, zero, bound), x) <= group
  {
    hide RefsCover, StoredMatches, CandidatesOf, CandidateOf, CleanDependencies.KeysIn;
    KeyIsIn(db, zero, bound, k, x);
    assert (k, x) in RootedUpTo(db.index, db.roots, zero, bound);
    StoredHolds(db, k, x);
    forall j ensures j in CleanDependencies.KeysIn(CandidatesOf(db, zero, bound), x) <==> j in AliveAt(db.index, x) {
      KeyIsIn(db, zero, bound, j, x);
      if j in AliveAt(db.index, x) { assert j in group; }
    }
  }

  lemma StoredHolds(db: Db, k: Pubkey, x: Slot)
    requires StoredMatches(db.index, db.stores) && (k, x) in db.index && db.index[(k, x)].Stored?
    ensures x in db.stores
  {
    assert HoldsKey(db.stores, (k, x).1, (k, x).0);
  }

  lemma KeyIsIn(db: Db, zero: set<Pubkey>, bound: Slot, j: Pubkey, x: Slot)
    requires RefsCover(db.refs, db.stores)
    ensures j in CleanDependencies.KeysIn(CandidatesOf(db, zero, bound), x) <==>
      j in zero && x in CandidateOf(db, zero, bound, j).slots
    ensures j in zero ==> (x in CandidateOf(db, zero, bound, j).slots <==>
      (j, x) in RootedUpTo(db.index, db.roots, zero, bound))
  {}

  /** The greatest set of zero-lamport keys that can go together. */
  ghost predicate IsKept(db: Db, keys: set<Pubkey>, bound: Slot, kept: set<Pubkey>) {
    RefsCover(db.refs, db.stores) &&
    CleanDependencies.GreatestClosed(CandidatesOf(db, ZeroKeys(db, keys, bound), bound),
      AliveCounts(db.index, db.stores), kept)
  }

  /** Clean drops the outdated versions of the keys, then purges the greatest set of zero-lamport keys it can, except
      those that went to zero after the latest full snapshot. */
  ghost predicate IsCleaned(db: Db, keys: set<Pubkey>, bound: Slot, snapshot: Option<Slot>, purge: set<Pubkey>,
                            db': Db) {
    var older := CleanOlder(db, keys, bound);
    && RefsCover(older.refs, older.stores)
    && CleanDependencies.IsPurge(CandidatesOf(older, ZeroKeys(older, keys, bound), bound),
         AliveCounts(older.index, older.stores), bound, snapshot, purge)
    && db' == PurgeZero(older, purge, bound)
  }

  /** Looks for the keys whose newest version up to the clean root is zero-lamport. */
  method CollectCandidates(ghost db: Db, index: Index, refs: Refs, roots: set<Slot>, stores: Stores, keys: set<Pubkey>,
                           bound: Slot)
    returns (candidates: CleanDependencies.Candidates)
    requires index == db.index && refs == db.refs && roots == db.roots && stores == db.stores && RefsCover(refs, stores)
    ensures candidates == CandidatesOf(db, ZeroKeys(db, keys, bound), bound)
    ensures forall k | k in candidates :: candidates[k].slots != {}
  {
    hide IsNewestRooted, IsZero, IsZeroKey, RefsCover, CandidateOf;
    candidates := map[];
    var todo := keys;
    while todo != {}
      invariant todo <= keys && candidates.Keys == ZeroKeys(db, keys - todo, bound)
      invariant forall k | k in candidates ::
        candidates[k].slots != {} && candidates[k] == CandidateOf(db, {k}, bound, k)
      decreases todo
    {
      var k :| k in todo;
      var slots := SlotsOf(RootedUpTo(index, roots, {k}, bound), k);
      var zero := HasZeroNewest(db, index, roots, stores, k, bound, slots);
      if zero {
        RefIsNat(db, k);
        candidates := candidates[k := CleanDependencies.CleaningInfo(slots, Ref(refs, k))];
        assert candidates[k] == CandidateOf(db, {k}, bound, k) by { IsCandidate(db, k, bound); }
      }
      todo := todo - {k};
    }
    assert keys - todo == keys;
    forall k | k in candidates ensures candidates[k] == CandidateOf(db, candidates.Keys, bound, k) {
      SameCandidate(db, candidates.Keys, bound, k);
    }
  }

  lemma RefIsNat(db: Db, k: Pubkey)
    requires RefsCover(db.refs, db.stores)
    ensures Ref(db.refs, k) >= 0
  {
    assert |Holders(db.stores, k)| <= Ref(db.refs, k);
  }

  lemma IsCandidate(db: Db, k: Pubkey, bound: Slot)
    requires RefsCover(db.refs, db.stores)
    ensures var c := CandidateOf(db, {k}, bound, k);
      c.slots == SlotsOf(RootedUpTo(db.index, db.roots, {k}, bound), k) && c.refCount == Ref(db.refs, k)
  {}

  lemma SameCandidate(db: Db, keys: set<Pubkey>, bound: Slot, k: Pubkey)
    requires RefsCover(db.refs, db.stores) && k in keys
    ensures CandidateOf(db, {k}, bound, k) == CandidateOf(db, keys, bound, k)
  {
    SameSlots(db, keys, bound, {k}, k);
  }

  method HasZeroNewest(ghost db: Db, index: Index, roots: set<Slot>, stores: Stores, k: Pubkey, bound: Slot,
                       slots: set<Slot>)
    returns (zero: bool)
    requires index == db.index && roots == db.roots && stores == db.stores
    requires slots == SlotsOf(RootedUpTo(index, roots, {k}, bound), k)
    ensures zero <==> IsZeroKey(db, bound, k)
    ensures zero ==> slots != {}
  {
    if slots == {} {
      forall x: Slot ensures !IsNewestRooted(index, roots, (k, x), bound) {
        assert IsNewestRooted(index, roots, (k, x), bound) ==> (k, x) in RootedUpTo(index, roots, {k}, bound);
      }
      zero := false;
    } else {
      Sets.HasHighest(slots);
      var newest :| newest in slots && forall x | x in slots :: x <= newest;
      assert IsNewestRooted(index, roots, (k, newest), bound) by {
        forall q | q in index && q.0 == k && q.1 in roots && q.1 <= bound ensures q.1 <= newest {
          assert (k, q.1) in RootedUpTo(index, roots, {k}, bound);
        }
      }
      zero := IsZero(stores, (k, newest));
    }
  }
}
