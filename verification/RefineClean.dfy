/**
 Clean as steps of the load protocol: entries leave the index key by key, then the counters are lowered slot by slot,
 and the storages that reach zero go with their roots.
 */
module RefineClean {
  import opened Types
  import opened LoadProtocol
  import opened LoadInvariant
  import opened LoadHistory
  import opened LoadPaths
  import opened Refinement
  import D = Database
  import DI = DatabaseInvariant
  import L = LoadDatabase

  // ---------------------------------------------------------------- reclaims

  ghost predicate NoEntry(index: Index, slot: Slot) {
    forall p | p in index :: p.1 != slot
  }

  /** Once its reclaims are subtracted, a storage counts its index entries. */
  lemma CountsEntries(s: State, slot: Slot)
    requires CountsOk(s.index, s.background, s.reclaims, s.storageMap, s.counts) && Reclaiming(s.background)
    requires CachedLive(s.index, s.cache) && CacheOk(s.cache, s.history, s.storageMap, s.background)
    requires StoredLive(s.index, s.storages, s.storageMap, s.shrinkMap) && s.shrinkMap == map[]
    requires slot in s.storageMap && slot !in Current(s.background) && !Pending(s.reclaims, slot)
    ensures s.storageMap[slot] in s.counts && (s.counts[s.storageMap[slot]] == 0 <==> NoEntry(s.index, slot))
  {
    var id := s.storageMap[slot];
    NoRefs(s, slot);
    OnlyRefs(s.index, s.background, s.reclaims, slot, id);
    hide Counted, Refs, NoEntry, CachedLive, CacheOk, StoredLive;
  }

  lemma NoRefs(s: State, slot: Slot)
    requires CachedLive(s.index, s.cache) && CacheOk(s.cache, s.history, s.storageMap, s.background)
    requires StoredLive(s.index, s.storages, s.storageMap, s.shrinkMap) && s.shrinkMap == map[]
    requires slot in s.storageMap && slot !in Current(s.background)
    ensures Refs(s.index, slot, s.storageMap[slot]) == {} <==> NoEntry(s.index, slot)
  {
    var refs := Refs(s.index, slot, s.storageMap[slot]);
    hide Refs;
    if refs == {} {
      forall p | p in s.index ensures p.1 != slot { assert p.1 == slot ==> p == (p.0, slot) && p.0 in refs; }
    } else {
      var k :| k in refs;
      assert (k, slot).1 == slot;
    }
  }

  lemma OnlyRefs(index: Index, b: Background, reclaims: set<(Pubkey, Slot)>, slot: Slot, id: StorageId)
    requires Reclaiming(b) && !Pending(reclaims, slot)
    ensures Counted(index, b, reclaims, slot, id) == Refs(index, slot, id)
  {
    hide Counted, Refs;
    forall k ensures k !in KeysAt(reclaims, slot) { assert (k, slot) in reclaims ==> Pending(reclaims, slot); }
  }

  /** What the reclaims of one slot need of the invariant. */
  lemma CanReclaim(s: State, slot: Slot)
    requires Core(s) && Reclaiming(s.background) && Pending(s.reclaims, slot)
    ensures CanReclaimSlot(s, slot) && s.shrinkMap == map[] && slot !in Current(s.background)
  {}

  lemma ReclaimOne(start: State, s: State, slot: Slot)
    requires Reaches(start, s) && Core(s) && Reclaiming(s.background) && Pending(s.reclaims, slot)
    ensures CanReclaimSlot(s, slot)
    ensures var s1 := DoReclaimSlot(s, slot);
      && Reaches(start, s1) && Core(s1)
      && forall x :: x in s1.dead <==> x in s.dead || (x == slot && NoEntry(s.index, slot))
  {
    CanReclaim(s, slot);
    var s1 := DoReclaimSlot(s, slot);
    assert ReclaimNext(s, ReclaimSlot(slot), s1) by { hide Core, Reaches; }
    TakeReclaim(start, s, ReclaimSlot(slot), s1) by { hide Core, Reaches; }
    assert !Pending(s1.reclaims, slot);
    CountsEntries(s1, slot);
  }

  /** Every slot with reclaims is worked through; those left without entries are dead. */
  lemma {:induction false} Drain(start: State, s: State) returns (s': State)
    requires Reaches(start, s) && Core(s) && Reclaiming(s.background)
    ensures Reaches(start, s') && Core(s') && s' == s.(counts := s'.counts, reclaims := {}, dead := s'.dead)
    ensures forall x :: x in s'.dead <==> x in s.dead || (Pending(s.reclaims, x) && NoEntry(s.index, x))
    decreases s.reclaims
  {
    hide Core, Reaches, NoEntry;
    if s.reclaims == {} {
      s' := s;
    } else {
      var p :| p in s.reclaims;
      var slot := p.1;
      assert Pending(s.reclaims, slot);
      ReclaimOne(start, s, slot);
      var s1 := DoReclaimSlot(s, slot);
      assert s1.reclaims < s.reclaims by { assert p !in s1.reclaims; }
      s' := Drain(start, s1);
      forall x ensures Pending(s.reclaims, x) <==> Pending(s1.reclaims, x) || x == slot {
        PendingNext(s.reclaims, slot, x);
      }
    }
  }

  lemma PendingNext(reclaims: set<(Pubkey, Slot)>, slot: Slot, x: Slot)
    requires Pending(reclaims, slot)
    ensures Pending(reclaims, x) <==> Pending(Without(reclaims, slot), x) || x == slot
  {
    if x != slot && Pending(reclaims, x) {
      var p :| p in reclaims && p.1 == x;
      assert p in Without(reclaims, slot);
    }
  }

  /** The dead slots lose their roots and storages. */
  lemma {:induction false} Bury(start: State, s: State)
    requires Reaches(start, s) && Core(s) && Reclaiming(s.background) && s.reclaims == {}
    ensures var s' := s.(roots := s.roots - s.dead, storageMap := s.storageMap - s.dead, dead := {});
      Reaches(start, s') && Core(s')
    decreases s.dead
  {
    hide Core, Reaches;
    if s.dead == {} {
      assert s.(roots := s.roots - s.dead, storageMap := s.storageMap - s.dead, dead := {}) == s;
    } else {
      var slot :| slot in s.dead;
      var s1 := DoKillRoot(s, slot);
      assert ReclaimNext(s, KillRoot(slot), s1);
      TakeReclaim(start, s, KillRoot(slot), s1);
      var s2 := DoRemoveStorage(s1, slot);
      assert ReclaimNext(s1, RemoveStorage(slot), s2);
      TakeReclaim(start, s1, RemoveStorage(slot), s2);
      Bury(start, s2);
      assert s2.roots - s2.dead == s.roots - s.dead && s2.storageMap - s2.dead == s.storageMap - s.dead;
    }
  }

  /** Reclaims, from the last entry dropped to the last storage removed. */
  lemma ReclaimAll(start: State, s: State) returns (s': State)
    requires Reaches(start, s) && Core(s) && Reclaiming(s.background) && s.dead == {}
    ensures Reaches(start, s') && Core(s')
    ensures var dead := DeadSlots(s.index, s.storageMap, s.reclaims);
      s' == s.(counts := s'.counts, reclaims := {}, roots := s.roots - dead, storageMap := s.storageMap - dead)
  {
    PendingIsMapped(s);
    hide Core, Reaches, NoEntry;
    var s1 := Drain(start, s);
    Bury(start, s1);
    s' := s1.(roots := s1.roots - s1.dead, storageMap := s1.storageMap - s1.dead, dead := {});
    assert s1.dead == DeadSlots(s.index, s.storageMap, s.reclaims);
  }

  ghost function DeadSlots(index: Index, storageMap: StorageMap, reclaims: set<(Pubkey, Slot)>): set<Slot> {
    set x | x in storageMap && Pending(reclaims, x) && NoEntry(index, x)
  }

  lemma PendingIsMapped(s: State)
    requires Core(s)
    ensures forall x | Pending(s.reclaims, x) :: x in s.storageMap
  {}

  // ---------------------------------------------------------------- entries

  type Gone = set<(Pubkey, Slot)>

  function GoneOf(gone: Gone, keys: set<Pubkey>): Gone {
    set p | p in gone && p.0 in keys
  }

  function DropPairs(index: Index, gone: Gone): Index {
    map p | p in index && p !in gone :: index[p]
  }

  /** Each key's entries may go in one proper step. */
  ghost predicate Droppable(s: State, gone: Gone, k: Pubkey) {
    && Proper(s, CleanKey(k, D.SlotsOf(gone, k)))
    && forall x | x in D.SlotsOf(gone, k) :: (k, x) in s.index && s.index[(k, x)].AppendVec?
  }

  /** Whether a key's entries may go depends on its own entries only. */
  lemma DroppableStays(s: State, s1: State, gone: Gone, key: Pubkey, k: Pubkey)
    requires Droppable(s, gone, k) && k != key && s1.roots == s.roots && s1.history == s.history
    requires s1.index == DropKey(s.index, key, D.SlotsOf(gone, key))
    ensures Droppable(s1, gone, k)
  {
    var slots := D.SlotsOf(gone, k);
    var bound: Slot :| AreOutdated(s.index, s.roots, k, slots, bound) ||
      ArePurged(s.index, s.roots, s.history, k, slots, bound);
    forall x: Slot ensures (k, x) in s1.index <==> (k, x) in s.index {}
    forall x: Slot ensures IsNewestUpTo(s1.index, s.roots, k, x, bound) <==>
      IsNewestUpTo(s.index, s.roots, k, x, bound) {
      NewestStays(s.index, s1.index, s.roots, k, x, bound);
    }
    hide IsNewestUpTo;
    assert AreOutdated(s1.index, s.roots, k, slots, bound) || ArePurged(s1.index, s.roots, s.history, k, slots, bound);
  }

  lemma NewestStays(index: Index, index1: Index, roots: set<Slot>, k: Pubkey, x: Slot, bound: Slot)
    requires forall y: Slot :: (k, y) in index1 <==> (k, y) in index
    ensures IsNewestUpTo(index1, roots, k, x, bound) <==> IsNewestUpTo(index, roots, k, x, bound)
  {
    forall p: (Pubkey, Slot) | p.0 == k ensures p in index1 <==> p in index { assert p == (k, p.1); }
  }

  lemma DropsPairs(index: Index, gone: Gone, key: Pubkey)
    ensures DropKey(index, key, D.SlotsOf(gone, key)) == DropPairs(index, GoneOf(gone, {key}))
    ensures Pairs(key, D.SlotsOf(gone, key)) == GoneOf(gone, {key})
  {
    forall p: (Pubkey, Slot) ensures p in GoneOf(gone, {key}) <==> p.0 == key && p.1 in D.SlotsOf(gone, key) {
      assert p == (p.0, p.1);
    }
  }

  lemma DropsMore(index: Index, gone: Gone, key: Pubkey, keys: set<Pubkey>)
    requires key in keys
    ensures DropPairs(DropPairs(index, GoneOf(gone, {key})), GoneOf(gone, keys - {key})) ==
      DropPairs(index, GoneOf(gone, keys))
    ensures GoneOf(gone, {key}) + GoneOf(gone, keys - {key}) == GoneOf(gone, keys)
  {}

  lemma {:induction false} DropKeys(start: State, s: State, gone: Gone, keys: set<Pubkey>)
    requires Reaches(start, s) && Core(s) && s.background == Cleaning(false) && s.readers == map[]
    requires forall k | k in keys :: Droppable(s, gone, k)
    ensures var s' := s.(index := DropPairs(s.index, GoneOf(gone, keys)), reclaims := s.reclaims + GoneOf(gone, keys));
      Reaches(start, s') && Core(s')
    decreases keys
  {
    hide Core, Reaches, Droppable, DropPairs, GoneOf, DropKey, Pairs;
    if keys == {} {
      NothingGone(s.index, gone);
      assert s.reclaims + {} == s.reclaims;
    } else {
      var key :| key in keys;
      DropsPairs(s.index, gone, key);
      DropsMore(s.index, gone, key, keys);
      DropOne(start, s, gone, key);
      var s1 := DoCleanKey(s, key, D.SlotsOf(gone, key));
      forall k | k in keys - {key} ensures Droppable(s1, gone, k) { DroppableStays(s, s1, gone, key, k); }
      DropKeys(start, s1, gone, keys - {key});
      assert s1.reclaims + GoneOf(gone, keys - {key}) == s.reclaims + GoneOf(gone, keys);
    }
  }

  lemma NothingGone(index: Index, gone: Gone)
    ensures GoneOf(gone, {}) == {} && DropPairs(index, GoneOf(gone, {})) == index
  {}

  lemma DropOne(start: State, s: State, gone: Gone, key: Pubkey)
    requires Reaches(start, s) && Core(s) && s.background == Cleaning(false) && s.readers == map[] &&
      Droppable(s, gone, key)
    ensures CanCleanKey(s, key, D.SlotsOf(gone, key))
    ensures var s1 := DoCleanKey(s, key, D.SlotsOf(gone, key)); Reaches(start, s1) && Core(s1)
  {
    hide Core, Reaches, Proper, DropKey;
    var step := CleanKey(key, D.SlotsOf(gone, key));
    assert CleanNext(s, step, DoCleanKey(s, key, D.SlotsOf(gone, key)));
    TakeClean(start, s, step, DoCleanKey(s, key, D.SlotsOf(gone, key)));
  }

  // ---------------------------------------------------------------- a clean

  /** A clean that takes these entries. */
  lemma CleanEntries(start: State, s: State, gone: Gone, keys: set<Pubkey>) returns (s': State)
    requires Reaches(start, s) && Core(s) && Resting(s) && (forall k | k in keys :: Droppable(s, gone, k))
    requires forall p | p in gone :: p.0 in keys
    ensures Reaches(start, s') && Core(s') && Resting(s')
    ensures var index := DropPairs(s.index, gone);
      var dead := DeadSlots(index, s.storageMap, gone);
      s' == s.(index := index, counts := s'.counts, roots := s.roots - dead, storageMap := s.storageMap - dead)
  {
    hide Core, Reaches, DropPairs, DeadSlots, Droppable;
    assert GoneOf(gone, keys) == gone;
    var s1 := DoBeginClean(s);
    assert CleanNext(s, BeginClean, s1);
    TakeClean(start, s, BeginClean, s1);
    forall k | k in keys ensures Droppable(s1, gone, k) { SameDroppable(s, s1, gone, k); }
    DropKeys(start, s1, gone, keys);
    var s2 := s1.(index := DropPairs(s.index, gone), reclaims := s1.reclaims + gone);
    var s3 := DoCleanReclaims(s2);
    assert CleanNext(s2, CleanReclaims, s3);
    TakeClean(start, s2, CleanReclaims, s3);
    assert s3.reclaims == gone;
    var s4 := ReclaimAll(start, s3);
    s' := CleanEnds(start, s4);
  }

  lemma CleanEnds(start: State, s: State) returns (s': State)
    requires Reaches(start, s) && Core(s) && s.background == Cleaning(true) && s.reclaims == {} && s.dead == {}
    ensures s' == s.(background := Idle) && Reaches(start, s') && Core(s')
  {
    hide Core, Reaches;
    var s1 := DoCleanReclaimed(s);
    assert CleanNext(s, CleanReclaimed, s1);
    TakeClean(start, s, CleanReclaimed, s1);
    s' := DoEndClean(s1);
    assert CleanNext(s1, EndClean, s');
    TakeClean(start, s1, EndClean, s');
  }

  lemma SameDroppable(s: State, s1: State, gone: Gone, k: Pubkey)
    requires Droppable(s, gone, k) && s1.index == s.index && s1.roots == s.roots && s1.history == s.history
    ensures Droppable(s1, gone, k)
  {
    hide AreOutdated, ArePurged;
  }

  lemma SameDrop(index: Index, other: D.Index, gone: Gone)
    requires SameIndex(index, other)
    ensures SameIndex(DropPairs(index, gone), map p | p in other && p !in gone :: other[p])
  {}

  lemma SameDead(index: Index, other: D.Index, storageMap: StorageMap, stores: D.Stores, gone: Gone)
    requires index.Keys == other.Keys && storageMap.Keys == stores.Keys
    ensures DeadSlots(index, storageMap, gone) == D.Emptied(other, stores, gone)
  {
    forall x ensures x in DeadSlots(index, storageMap, gone) <==> x in D.Emptied(other, stores, gone) {
      PendingKeys(gone, x);
      assert NoEntry(index, x) <==> forall p | p in other :: p.1 != x by {
        forall p ensures p in index <==> p in other { assert p in index.Keys <==> p in other.Keys; }
      }
    }
  }

  lemma FewerStores(storages: Storages, storageMap: StorageMap, stores: D.Stores, dead: set<Slot>)
    requires SameStores(storages, storageMap, stores)
    ensures SameStores(storages, storageMap - dead, stores - dead)
  {}

  /** Taking entries and removing the emptied storages matches the database's reclaim. */
  lemma ReclaimMatches(s: State, db: D.Db, gone: Gone, removed: set<Pubkey>, counts: map<StorageId, int>)
    requires Matches(s, db)
    ensures var index := DropPairs(s.index, gone);
      var dead := DeadSlots(index, s.storageMap, gone);
      Matches(s.(index := index, counts := counts, roots := s.roots - dead, storageMap := s.storageMap - dead),
              D.Reclaim(db, gone, removed))
  {
    var index, other := DropPairs(s.index, gone), map p | p in db.index && p !in gone :: db.index[p];
    SameDrop(s.index, db.index, gone);
    SameDead(index, other, s.storageMap, db.stores, gone);
    FewerStores(s.storages, s.storageMap, db.stores, DeadSlots(index, s.storageMap, gone));
    hide DropPairs, DeadSlots, SameIndex, SameStores, D.Emptied;
  }

  lemma PendingKeys(gone: Gone, x: Slot)
    ensures Pending(gone, x) <==> KeysAt(gone, x) != {}
  {
    if Pending(gone, x) {
      var p :| p in gone && p.1 == x;
      assert (p.0, x) in gone && p.0 in KeysAt(gone, x);
    } else {
      forall k ensures k !in KeysAt(gone, x) { assert (k, x) in gone ==> Pending(gone, x); }
    }
  }

  /** Clean's outdated versions. */
  lemma OlderRefines(start: State, s: State, db: D.Db, keys: set<Pubkey>, bound: Slot) returns (s': State)
    requires Reaches(start, s) && Core(s) && Resting(s) && Matches(s, db)
    ensures Reaches(start, s') && Core(s') && Resting(s') && Matches(s', D.CleanOlder(db, keys, bound))
  {
    var gone := D.Older(db.index, db.roots, keys, bound);
    forall k | k in keys ensures Droppable(s, gone, k) { OlderIsDroppable(s, db, keys, bound, k); }
    hide Core, Reaches, Droppable, DropPairs, DeadSlots, Matches, D.Reclaim, D.Older;
    s' := CleanEntries(start, s, gone, keys);
    ReclaimMatches(s, db, gone, {}, s'.counts);
    SameMatches(s', D.Reclaim(db, gone, {}), D.CleanOlder(db, keys, bound).cleaned);
  }

  lemma SameMatches(s: State, db: D.Db, cleaned: Slot)
    requires Matches(s, db)
    ensures Matches(s, db.(cleaned := cleaned))
  {}

  lemma OlderIsDroppable(s: State, db: D.Db, keys: set<Pubkey>, bound: Slot, k: Pubkey)
    requires Matches(s, db)
    ensures Droppable(s, D.Older(db.index, db.roots, keys, bound), k)
  {
    var gone := D.Older(db.index, db.roots, keys, bound);
    SameData(s, db);
    L.OlderIsProper(s, db, keys, bound, k);
    hide Proper;
    forall x | x in D.SlotsOf(gone, k)
      ensures (k, x) in s.index && s.index[(k, x)].AppendVec? { assert (k, x) in gone; }
  }

  lemma SameData(s: State, db: D.Db)
    requires Matches(s, db)
    ensures L.Same(s, db)
  {
    forall p ensures p in s.index <==> p in db.index { assert p in s.index.Keys <==> p in db.index.Keys; }
  }

  /** Clean's purge of zero-lamport keys. */
  lemma PurgeZeroRefines(start: State, s: State, db: D.Db, keys: set<Pubkey>, bound: Slot) returns (s': State)
    requires Reaches(start, s) && Core(s) && Resting(s) && Matches(s, db) && DI.Core(db) &&
      D.CanPurgeZero(db, keys, bound)
    ensures Reaches(start, s') && Core(s') && Resting(s') && Matches(s', D.PurgeZero(db, keys, bound))
  {
    var gone := D.RootedUpTo(db.index, db.roots, keys, bound);
    var removed := D.Removed(db.index, gone, keys);
    forall k | k in keys ensures Droppable(s, gone, k) { ZeroIsDroppable(s, db, keys, bound, k); }
    hide Core, Reaches, Droppable, DropPairs, DeadSlots, Matches, D.Reclaim, D.RootedUpTo, D.CanPurgeZero, DI.Core;
    s' := CleanEntries(start, s, gone, keys);
    ReclaimMatches(s, db, gone, removed, s'.counts);
    SameMatches(s', D.Reclaim(db, gone, removed), D.PurgeZero(db, keys, bound).cleaned);
  }

  lemma ZeroIsDroppable(s: State, db: D.Db, keys: set<Pubkey>, bound: Slot, k: Pubkey)
    requires Matches(s, db) && D.CanPurgeZero(db, keys, bound) && k in keys
    requires DI.StoresOk(db.stores, db.cache, db.ever, db.history)
    ensures Droppable(s, D.RootedUpTo(db.index, db.roots, keys, bound), k)
  {
    var gone := D.RootedUpTo(db.index, db.roots, keys, bound);
    SameData(s, db);
    L.PurgeIsProper(s, db, keys, bound, k);
    hide Proper;
    forall x | x in D.SlotsOf(gone, k) ensures (k, x) in s.index && s.index[(k, x)].AppendVec? {
      assert (k, x) in gone && db.index[(k, x)].Stored?;
    }
  }
}
