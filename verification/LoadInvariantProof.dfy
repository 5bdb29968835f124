/**
 Every step of the load protocol keeps the invariant.
 */
module LoadInvariantProof {
  import opened Types
  import opened LoadProtocol
  import opened LoadInvariant

  // ---------------------------------------------------------------- steps that change the index

  /** Entries may go, the others stay as they are. */
  ghost predicate Shrunk(a: Index, a': Index) {
    forall p | p in a' :: p in a && a'[p] == a[p]
  }

  lemma ShrunkKeeps(s: State, a': Index)
    requires Shrunk(s.index, a')
    requires CachedLive(s.index, s.cache) && StoredLive(s.index, s.storages, s.storageMap, s.shrinkMap)
    requires IndexRooted(s.index, s.everRooted, s.roots)
    ensures CachedLive(a', s.cache) && StoredLive(a', s.storages, s.storageMap, s.shrinkMap)
    ensures IndexRooted(a', s.everRooted, s.roots)
  {}

  /** The two indexes agree on stored entries. */
  ghost predicate SameStored(a: Index, a': Index) {
    && (forall p | p in a && a[p].AppendVec? :: p in a' && a'[p] == a[p])
    && (forall p | p in a' && a'[p].AppendVec? :: p in a && a[p] == a'[p])
  }

  lemma SameRefs(a: Index, a': Index, slot: Slot, id: StorageId)
    requires SameStored(a, a')
    ensures Refs(a', slot, id) == Refs(a, slot, id)
  {}

  lemma SameCounted(index: Index, b: Background, reclaims: set<(Pubkey, Slot)>,
                    index': Index, b': Background, reclaims': set<(Pubkey, Slot)>, slot: Slot, id: StorageId)
    requires Refs(index', slot, id) == Refs(index, slot, id)
    requires Unindexed(b', slot) == Unindexed(b, slot) && KeysAt(reclaims', slot) == KeysAt(reclaims, slot)
    ensures Counted(index', b', reclaims', slot, id) == Counted(index, b, reclaims, slot, id)
  {}

  lemma SameStoredCounts(s: State, a': Index, b': Background)
    requires SameStored(s.index, a')
    requires CountsOk(s.index, s.background, s.reclaims, s.storageMap, s.counts)
    requires forall slot | slot in s.storageMap :: Unindexed(b', slot) == Unindexed(s.background, slot)
    requires forall slot | slot in s.storageMap && BeingReplaced(s.background, slot) :: BeingReplaced(b', slot)
    ensures CountsOk(a', b', s.reclaims, s.storageMap, s.counts)
  {
    forall slot | slot in s.storageMap && !BeingReplaced(b', slot)
      ensures Counted(a', b', s.reclaims, slot, s.storageMap[slot]) ==
        Counted(s.index, s.background, s.reclaims, slot, s.storageMap[slot])
    {
      SameRefs(s.index, a', slot, s.storageMap[slot]);
      SameCounted(s.index, s.background, s.reclaims, a', b', s.reclaims, slot, s.storageMap[slot]);
    }
  }

  /** A store in flight writes a slot that has no storage. */
  lemma StoreIndexSlot(s: State, t: nat)
    requires CanStoreIndex(s, t)
    requires StoringOk(s.storing, s.everRooted, s.cache, s.background)
    requires StoredSlotsOk(s.storageMap, s.everRooted, s.unflushed, s.background)
    requires MapsOk(s.storages, s.storageMap, s.shrinkMap)
    requires StoredLive(s.index, s.storages, s.storageMap, s.shrinkMap)
    ensures s.storing[t].1 !in s.everRooted && s.storing[t].1 !in s.storageMap
    ensures SameStored(s.index, DoStoreIndex(s, t).index)
  {
    var (key, slot) := s.storing[t];
    assert slot !in s.storageMap && slot !in s.shrinkMap;
    assert (key, slot) in s.index ==> s.index[(key, slot)].Cached?;
  }

  lemma StoreIndexStructure(s: State, t: nat)
    requires CanStoreIndex(s, t)
    requires SameStored(s.index, DoStoreIndex(s, t).index) && s.storing[t].1 !in s.everRooted &&
      s.storing[t].1 !in s.storageMap
    requires CachedLive(s.index, s.cache)
    requires StoredLive(s.index, s.storages, s.storageMap, s.shrinkMap)
    requires IndexRooted(s.index, s.everRooted, s.roots)
    requires StoringOk(s.storing, s.everRooted, s.cache, s.background)
    requires PurgeOk(s.background, s.everRooted, s.index)
    requires ReclaimsOk(s.reclaims, s.index, s.storageMap, s.background)
    ensures var s' := DoStoreIndex(s, t);
      && CachedLive(s'.index, s.cache) && StoredLive(s'.index, s.storages, s.storageMap, s.shrinkMap)
      && IndexRooted(s'.index, s.everRooted, s.roots) && StoringOk(s'.storing, s.everRooted, s.cache, s.background)
      && PurgeOk(s.background, s.everRooted, s'.index) && ReclaimsOk(s.reclaims, s'.index, s.storageMap, s.background)
  {}

  lemma StoreIndexFlush(s: State, t: nat)
    requires CanStoreIndex(s, t)
    requires s.storing[t].1 !in s.everRooted && RootsOk(s.roots, s.everRooted, s.unflushed, s.background)
    requires SameStored(s.index, DoStoreIndex(s, t).index)
    requires FlushOk(s.background, s.index, s.roots, s.cache, s.storageMap, s.storages)
    ensures FlushOk(s.background, DoStoreIndex(s, t).index, s.roots, s.cache, s.storageMap, s.storages)
  {}

  lemma StoreIndexShrink(s: State, t: nat)
    requires CanStoreIndex(s, t)
    requires s.storing[t].1 !in s.storageMap
    requires SameStored(s.index, DoStoreIndex(s, t).index)
    requires ShrinkOk(s.background, s.index, s.storages, s.storageMap, s.shrinkMap, s.counts)
    ensures ShrinkOk(s.background, DoStoreIndex(s, t).index, s.storages, s.storageMap, s.shrinkMap, s.counts)
  {
    var s' := DoStoreIndex(s, t);
    if s.background.Shrinking? {
      forall slot | slot in s.background.slots
        ensures ShrinkSlotOk(s'.index, s.storages, s.storageMap[slot], s.counts, slot, s.background.slots[slot])
      {
        SameRefs(s.index, s'.index, slot, s.background.slots[slot].id);
      }
    }
  }

  lemma StoreIndexIndexed(s: State, t: nat)
    requires CanStoreIndex(s, t)
    requires CacheIndexed(s.index, s.cache, s.storing, s.background)
    ensures var s' := DoStoreIndex(s, t); CacheIndexed(s'.index, s.cache, s'.storing, s.background)
  {
    var s' := DoStoreIndex(s, t);
    forall slot, k | slot in s.cache && k in s.cache[slot] && InFlight(s.storing, k, slot)
      ensures (k, slot) in s'.index || InFlight(s'.storing, k, slot)
    {
      var u :| u in s.storing && s.storing[u] == (k, slot);
      assert u != t ==> u in s'.storing;
    }
  }

  lemma StoreIndexKeeps(s: State, t: nat)
    requires Core(s) && CanStoreIndex(s, t)
    ensures Core(DoStoreIndex(s, t))
  {
    StoreIndexSlot(s, t);
    StoreIndexStructure(s, t);
    StoreIndexFlush(s, t);
    StoreIndexShrink(s, t);
    StoreIndexIndexed(s, t);
    SameStoredCounts(s, DoStoreIndex(s, t).index, s.background);
  }

  lemma IndexedKeeps(s: State, cache': Cache, b': Background)
    requires CacheIndexed(s.index, s.cache, s.storing, s.background)
    requires forall slot | slot in cache' ::
      && slot in s.cache && cache'[slot] == s.cache[slot]
      && (slot in Current(s.background) ==> slot in Current(b'))
      && (s.background.Purging? && s.background.purged == slot ==> b'.Purging? && b'.purged == slot)
    ensures CacheIndexed(s.index, cache', s.storing, b')
  {}

  /** Nothing is being reclaimed. */
  predicate IsQuiet(b: Background) {
    !b.Cleaning? && (b.Flushing? ==> b.phase.NextSlot? || b.phase.PurgeKeys? || b.phase.DropCache?)
  }

  lemma Quiet(s: State)
    requires IsQuiet(s.background)
    requires ReclaimsOk(s.reclaims, s.index, s.storageMap, s.background)
    requires DeadOk(s.dead, s.storageMap, s.counts, s.background)
    requires ShrinkOk(s.background, s.index, s.storages, s.storageMap, s.shrinkMap, s.counts)
    ensures s.reclaims == {} && s.dead == {} && (!s.background.Shrinking? ==> s.shrinkMap == map[])
  {}

  // ---------------------------------------------------------------- flushing

  /** The background actor moves on within the same slot. */
  ghost predicate SameBatch(b: Background, b': Background) {
    && Todo(b') == Todo(b) && Current(b') == Current(b) && Flushed(b') == Flushed(b)
    && (b'.Purging? ==> b.Purging? && b.purged == b'.purged)
  }

  lemma SameBatchKeeps(s: State, b': Background)
    requires SameBatch(s.background, b')
    requires CacheOk(s.cache, s.history, s.storageMap, s.background)
    requires RootsOk(s.roots, s.everRooted, s.unflushed, s.background)
    requires StoredSlotsOk(s.storageMap, s.everRooted, s.unflushed, s.background)
    requires CachePending(s.cache, s.everRooted, s.unflushed, s.background)
    requires OrderOk(s.everRooted, s.unflushed, s.background)
    requires StoringOk(s.storing, s.everRooted, s.cache, s.background)
    requires ShrinkOk(s.background, s.index, s.storages, s.storageMap, s.shrinkMap, s.counts)
    ensures CacheOk(s.cache, s.history, s.storageMap, b')
    ensures RootsOk(s.roots, s.everRooted, s.unflushed, b')
    ensures StoredSlotsOk(s.storageMap, s.everRooted, s.unflushed, b')
    ensures CachePending(s.cache, s.everRooted, s.unflushed, b')
    ensures OrderOk(s.everRooted, s.unflushed, b')
    ensures StoringOk(s.storing, s.everRooted, s.cache, b')
    ensures !s.background.Shrinking? ==> s.shrinkMap == map[]
  {}

  /** Taking the next slot of the batch, to skip it or to flush it. */
  ghost predicate Takes(b: Background, b': Background, slot: Slot) {
    && IsNextSlot(b, slot) && b'.Flushing?
    && Todo(b') == Todo(b) - {slot} && Flushed(b') == Flushed(b) + {slot} && Current(b') <= {slot}
  }

  lemma TakesOrder(s: State, b': Background, slot: Slot)
    requires Takes(s.background, b', slot)
    requires RootsOk(s.roots, s.everRooted, s.unflushed, s.background)
    requires OrderOk(s.everRooted, s.unflushed, s.background)
    ensures RootsOk(s.roots, s.everRooted, s.unflushed, b')
    ensures OrderOk(s.everRooted, s.unflushed, b')
  {
    assert slot in Todo(s.background) && Current(s.background) == {};
  }

  lemma TakesCache(s: State, b': Background, slot: Slot)
    requires Takes(s.background, b', slot) && (slot in s.cache ==> Current(b') == {slot})
    requires CacheOk(s.cache, s.history, s.storageMap, s.background)
    requires StoredSlotsOk(s.storageMap, s.everRooted, s.unflushed, s.background)
    requires CachePending(s.cache, s.everRooted, s.unflushed, s.background)
    requires StoringOk(s.storing, s.everRooted, s.cache, s.background)
    ensures CacheOk(s.cache, s.history, s.storageMap, b')
    ensures StoredSlotsOk(s.storageMap, s.everRooted, s.unflushed, b')
    ensures CachePending(s.cache, s.everRooted, s.unflushed, b')
    ensures StoringOk(s.storing, s.everRooted, s.cache, b')
  {
    assert Current(s.background) == {};
  }

  lemma FlushSkipRest(s: State, slot: Slot)
    requires CanFlushSkip(s, slot)
    requires FlushOk(s.background, s.index, s.roots, s.cache, s.storageMap, s.storages)
    requires CacheIndexed(s.index, s.cache, s.storing, s.background)
    requires CountsOk(s.index, s.background, s.reclaims, s.storageMap, s.counts)
    ensures var b' := DoFlushSkip(s, slot).background;
      && Takes(s.background, b', slot)
      && FlushOk(b', s.index, s.roots, s.cache, s.storageMap, s.storages)
      && CacheIndexed(s.index, s.cache, s.storing, b')
      && CountsOk(s.index, b', s.reclaims, s.storageMap, s.counts)
  {
    SameStoredCounts(s, s.index, DoFlushSkip(s, slot).background);
  }

  lemma FlushSkipKeeps(s: State, slot: Slot)
    requires Core(s) && CanFlushSkip(s, slot)
    ensures Core(DoFlushSkip(s, slot))
  {
    var b' := DoFlushSkip(s, slot).background;
    FlushSkipRest(s, slot);
    TakesOrder(s, b', slot);
    TakesCache(s, b', slot);
    Quiet(s);
  }

  /** A rooted slot waiting for its flush is wholly indexed. */
  lemma FlushSlotIndexed(s: State, slot: Slot)
    requires CanFlushSlot(s, slot)
    requires RootsOk(s.roots, s.everRooted, s.unflushed, s.background)
    requires StoringOk(s.storing, s.everRooted, s.cache, s.background)
    requires CacheIndexed(s.index, s.cache, s.storing, s.background)
    ensures forall k | k in s.cache[slot] :: (k, slot) in s.index
    ensures CacheIndexed(s.index, s.cache, s.storing, DoFlushSlot(s, slot).background)
  {
    assert slot in Todo(s.background);
  }

  lemma FlushSlotFlush(s: State, slot: Slot)
    requires CanFlushSlot(s, slot) && slot in s.roots && slot !in s.storageMap && s.shrinkMap == map[]
    requires CachedLive(s.index, s.cache) && StoredLive(s.index, s.storages, s.storageMap, s.shrinkMap)
    requires WrittenOk(s.background, s.index, s.roots)
    requires forall k | k in s.cache[slot] :: (k, slot) in s.index
    ensures FlushOk(DoFlushSlot(s, slot).background, s.index, s.roots, s.cache, s.storageMap, s.storages)
    ensures Takes(s.background, DoFlushSlot(s, slot).background, slot)
  {
    assert slot in Todo(s.background);
  }

  lemma FlushSlotCounts(s: State, slot: Slot)
    requires CanFlushSlot(s, slot)
    requires CountsOk(s.index, s.background, s.reclaims, s.storageMap, s.counts)
    ensures CountsOk(s.index, DoFlushSlot(s, slot).background, s.reclaims, s.storageMap, s.counts)
  {
    SameStoredCounts(s, s.index, DoFlushSlot(s, slot).background);
  }

  lemma FlushSlotKeeps(s: State, slot: Slot)
    requires Core(s) && CanFlushSlot(s, slot)
    ensures Core(DoFlushSlot(s, slot))
  {
    assert slot in Todo(s.background);
    Quiet(s);
    assert WrittenOk(s.background, s.index, s.roots);
    FlushSlotIndexed(s, slot);
    FlushSlotFlush(s, slot);
    TakesOrder(s, DoFlushSlot(s, slot).background, slot);
    TakesCache(s, DoFlushSlot(s, slot).background, slot);
    FlushSlotCounts(s, slot);
  }

  lemma FlushPurgeKeyFlush(s: State, key: Pubkey)
    requires CanFlushPurgeKey(s, key)
    requires FlushOk(s.background, s.index, s.roots, s.cache, s.storageMap, s.storages)
    ensures var s' := DoFlushPurgeKey(s, key);
      && FlushOk(s'.background, s'.index, s.roots, s.cache, s.storageMap, s.storages)
      && SameBatch(s.background, s'.background) && Shrunk(s.index, s'.index) && SameStored(s.index, s'.index)
  {
    assert SameBatch(s.background, DoFlushPurgeKey(s, key).background);
  }

  lemma FlushPurgeKeyRest(s: State, key: Pubkey)
    requires CanFlushPurgeKey(s, key)
    requires SameBatch(s.background, DoFlushPurgeKey(s, key).background) &&
      SameStored(s.index, DoFlushPurgeKey(s, key).index)
    requires Shrunk(s.index, DoFlushPurgeKey(s, key).index)
    requires CachedLive(s.index, s.cache) && StoredLive(s.index, s.storages, s.storageMap, s.shrinkMap)
    requires IndexRooted(s.index, s.everRooted, s.roots)
    requires CacheIndexed(s.index, s.cache, s.storing, s.background)
    requires CountsOk(s.index, s.background, s.reclaims, s.storageMap, s.counts)
    ensures var s' := DoFlushPurgeKey(s, key);
      && CachedLive(s'.index, s.cache) && StoredLive(s'.index, s.storages, s.storageMap, s.shrinkMap)
      && IndexRooted(s'.index, s.everRooted, s.roots)
      && CacheIndexed(s'.index, s.cache, s.storing, s'.background)
      && CountsOk(s'.index, s'.background, s.reclaims, s.storageMap, s.counts)
  {
    ShrunkKeeps(s, DoFlushPurgeKey(s, key).index);
    SameStoredCounts(s, DoFlushPurgeKey(s, key).index, DoFlushPurgeKey(s, key).background);
    assert s.background.phase.slot in Current(s.background);
  }

  lemma FlushPurgeKeyKeeps(s: State, key: Pubkey)
    requires Core(s) && CanFlushPurgeKey(s, key)
    ensures Core(DoFlushPurgeKey(s, key))
  {
    Quiet(s);
    FlushPurgeKeyFlush(s, key);
    FlushPurgeKeyRest(s, key);
    SameBatchKeeps(s, DoFlushPurgeKey(s, key).background);
  }

  lemma FlushDeadFlush(s: State)
    requires CanFlushDead(s)
    requires FlushOk(s.background, s.index, s.roots, s.cache, s.storageMap, s.storages)
    requires IndexRooted(s.index, s.everRooted, s.roots)
    ensures var s' := DoFlushDead(s);
      && FlushOk(s'.background, s.index, s'.roots, s.cache, s.storageMap, s.storages)
      && IndexRooted(s.index, s.everRooted, s'.roots) && SameBatch(s.background, s'.background)
  {
    assert SameBatch(s.background, DoFlushDead(s).background);
    assert s.background.phase.slot in Current(s.background);
  }

  lemma FlushDeadRoots(s: State)
    requires CanFlushDead(s) && SameBatch(s.background, DoFlushDead(s).background)
    requires RootsOk(s.roots, s.everRooted, s.unflushed, s.background)
    requires CountsOk(s.index, s.background, s.reclaims, s.storageMap, s.counts)
    requires CacheIndexed(s.index, s.cache, s.storing, s.background)
    ensures var s' := DoFlushDead(s);
      && RootsOk(s'.roots, s.everRooted, s.unflushed, s'.background)
      && CountsOk(s.index, s'.background, s.reclaims, s.storageMap, s.counts)
      && CacheIndexed(s.index, s.cache, s.storing, s'.background)
  {
    SameStoredCounts(s, s.index, DoFlushDead(s).background);
    IndexedKeeps(s, s.cache, DoFlushDead(s).background);
  }

  lemma FlushDeadKeeps(s: State)
    requires Core(s) && CanFlushDead(s)
    ensures Core(DoFlushDead(s))
  {
    FlushDeadFlush(s);
    SameBatchKeeps(s, DoFlushDead(s).background);
    FlushDeadRoots(s);
    Quiet(s);
  }

  lemma FlushWriteFlush(s: State)
    requires CanFlushWrite(s)
    requires FlushOk(s.background, s.index, s.roots, s.cache, s.storageMap, s.storages)
    ensures var s' := DoFlushWrite(s);
      && FlushOk(s'.background, s.index, s.roots, s.cache, s'.storageMap, s'.storages)
      && SameBatch(s.background, s'.background)
  {
    assert SameBatch(s.background, DoFlushWrite(s).background);
  }

  lemma FlushWriteStorage(s: State)
    requires CanFlushWrite(s) && s.background.phase.slot in s.cache && s.background.phase.slot !in s.storageMap
    requires StoredLive(s.index, s.storages, s.storageMap, s.shrinkMap) && s.shrinkMap == map[]
    requires IdsOk(s.storages, s.nextId, s.counts)
    requires MapsOk(s.storages, s.storageMap, s.shrinkMap)
    ensures var s' := DoFlushWrite(s);
      && StoredLive(s.index, s'.storages, s'.storageMap, s.shrinkMap) && IdsOk(s'.storages, s'.nextId, s'.counts)
      && MapsOk(s'.storages, s'.storageMap, s.shrinkMap)
  {}

  lemma FlushWriteContent(s: State)
    requires CanFlushWrite(s) && SameBatch(s.background, DoFlushWrite(s).background)
    requires ContentOk(s.storages, s.everRooted, s.history) && IdsOk(s.storages, s.nextId, s.counts)
    requires CacheOk(s.cache, s.history, s.storageMap, s.background)
    requires RootsOk(s.roots, s.everRooted, s.unflushed, s.background)
    requires StoredSlotsOk(s.storageMap, s.everRooted, s.unflushed, s.background)
    ensures var s' := DoFlushWrite(s);
      && ContentOk(s'.storages, s.everRooted, s.history)
      && CacheOk(s.cache, s.history, s'.storageMap, s'.background)
      && StoredSlotsOk(s'.storageMap, s.everRooted, s.unflushed, s'.background)
  {
    assert s.background.phase.slot in Current(s.background);
  }

  lemma WriteCounted(index: Index, b: Background, slot: Slot, id: StorageId, write: set<Pubkey>)
    requires b.Flushing? && b.phase == IndexKeys(slot, id, write, write)
    requires forall p | p in index && p.1 == slot :: index[p].Cached?
    ensures Counted(index, b, {}, slot, id) == write
  {}

  lemma NewStorageCounts(index: Index, b: Background, reclaims: set<(Pubkey, Slot)>, storageMap: StorageMap,
                         counts: map<StorageId, int>, slot: Slot, id: StorageId, count: int)
    requires CountsOk(index, b, reclaims, storageMap, counts)
    requires forall x | x in storageMap :: storageMap[x] != id
    requires count == |Counted(index, b, reclaims, slot, id)|
    ensures CountsOk(index, b, reclaims, storageMap[slot := id], counts[id := count])
  {}

  lemma FlushWriteCounts(s: State, b': Background, slot: Slot, write: set<Pubkey>)
    requires s.reclaims == {} && s.background.Flushing? && s.background.phase.PurgeKeys? && b'.Flushing?
    requires b'.phase == IndexKeys(slot, s.nextId, write, write) && slot !in s.storageMap
    requires forall p | p in s.index && p.1 == slot :: s.index[p].Cached?
    requires forall x | x in s.storageMap :: s.storageMap[x] < s.nextId
    requires CountsOk(s.index, s.background, s.reclaims, s.storageMap, s.counts)
    ensures CountsOk(s.index, b', s.reclaims, s.storageMap[slot := s.nextId], s.counts[s.nextId := |write|])
  {
    SameStoredCounts(s, s.index, b');
    WriteCounted(s.index, b', slot, s.nextId, write);
    NewStorageCounts(s.index, b', s.reclaims, s.storageMap, s.counts, slot, s.nextId, |write|);
  }

  lemma FlushWriteKeeps(s: State)
    requires Core(s) && CanFlushWrite(s)
    ensures Core(DoFlushWrite(s))
  {
    FlushWriteFlush(s);
    SameBatchKeeps(s, DoFlushWrite(s).background);
    FlushWriteStorage(s);
    FlushWriteContent(s);
    Quiet(s);
    FlushWriteCounts(s, DoFlushWrite(s).background, s.background.phase.slot, s.background.phase.write);
    IndexedKeeps(s, s.cache, DoFlushWrite(s).background);
  }

  lemma FlushIndexedFlush(s: State)
    requires CanFlushIndexed(s)
    requires FlushOk(s.background, s.index, s.roots, s.cache, s.storageMap, s.storages)
    ensures FlushOk(DoFlushIndexed(s).background, s.index, s.roots, s.cache, s.storageMap, s.storages)
    ensures SameBatch(s.background, DoFlushIndexed(s).background)
  {
    assert SameBatch(s.background, DoFlushIndexed(s).background);
  }

  lemma FlushIndexedKeeps(s: State)
    requires Core(s) && CanFlushIndexed(s)
    ensures Core(DoFlushIndexed(s))
  {
    FlushIndexedFlush(s);
    SameBatchKeeps(s, DoFlushIndexed(s).background);
    SameStoredCounts(s, s.index, DoFlushIndexed(s).background);
    assert s.dead == {};
  }

  lemma FlushIndexKeyLive(s: State, key: Pubkey)
    requires CanFlushIndexKey(s, key)
    requires FlushOk(s.background, s.index, s.roots, s.cache, s.storageMap, s.storages)
    requires CachedLive(s.index, s.cache)
    requires StoredLive(s.index, s.storages, s.storageMap, s.shrinkMap)
    requires IndexRooted(s.index, s.everRooted, s.roots)
    ensures var s' := DoFlushIndexKey(s, key);
      && CachedLive(s'.index, s.cache) && StoredLive(s'.index, s.storages, s.storageMap, s.shrinkMap)
      && IndexRooted(s'.index, s.everRooted, s.roots)
  {}

  lemma FlushIndexKeyReclaims(s: State, key: Pubkey)
    requires CanFlushIndexKey(s, key) && s.shrinkMap == map[]
    requires StoredLive(s.index, s.storages, s.storageMap, s.shrinkMap)
    requires ReclaimsOk(s.reclaims, s.index, s.storageMap, s.background)
    ensures var s' := DoFlushIndexKey(s, key);
      && ReclaimsOk(s'.reclaims, s'.index, s.storageMap, s'.background)
      && SameBatch(s.background, s'.background)
  {
    assert SameBatch(s.background, DoFlushIndexKey(s, key).background);
  }

  lemma FlushIndexKeyFlush(s: State, key: Pubkey)
    requires CanFlushIndexKey(s, key)
    requires FlushOk(s.background, s.index, s.roots, s.cache, s.storageMap, s.storages)
    ensures var s' := DoFlushIndexKey(s, key); FlushOk(s'.background, s'.index, s.roots, s.cache, s.storageMap,
      s.storages)
  {
    var s' := DoFlushIndexKey(s, key);
    assert SameBatch(s.background, s'.background);
    forall k | k in s.background.written
      ensures (k, s.background.written[k]) in s'.index && s'.index[(k, s.background.written[k])].AppendVec?
    {
      assert s.background.phase.slot in Current(s.background);
    }
  }

  /** Indexing a flushed key and reclaiming its older versions moves keys between the parts of Counted. */
  lemma FlushIndexKeyCounted(s: State, key: Pubkey, x: Slot, id: StorageId)
    requires CanFlushIndexKey(s, key)
    requires x == s.background.phase.slot ==>
      id == s.background.phase.id && ((key, x) in s.index ==> s.index[(key, x)].Cached?)
    requires (key, x) in s.index && s.index[(key, x)].AppendVec? ==> s.index[(key, x)].id == id
    ensures var s' := DoFlushIndexKey(s, key);
      Counted(s'.index, s'.background, s'.reclaims, x, id) == Counted(s.index, s.background, s.reclaims, x, id)
  {
    var s' := DoFlushIndexKey(s, key);
    var a, b := Counted(s'.index, s'.background, s'.reclaims, x, id), Counted(s.index, s.background, s.reclaims, x, id);
    forall k ensures k in a <==> k in b {
      if k != key {
        assert (k, x) in s'.index <==> (k, x) in s.index;
        assert (k, x) in s'.reclaims <==> (k, x) in s.reclaims;
      }
    }
  }

  lemma FlushIndexKeyCounts(s: State, key: Pubkey)
    requires CanFlushIndexKey(s, key)
    requires FlushOk(s.background, s.index, s.roots, s.cache, s.storageMap, s.storages)
    requires StoredLive(s.index, s.storages, s.storageMap, s.shrinkMap) && s.shrinkMap == map[]
    requires CountsOk(s.index, s.background, s.reclaims, s.storageMap, s.counts)
    ensures var s' := DoFlushIndexKey(s, key); CountsOk(s'.index, s'.background, s'.reclaims, s.storageMap, s.counts)
  {
    var s' := DoFlushIndexKey(s, key);
    forall x | x in s.storageMap
      ensures Counted(s'.index, s'.background, s'.reclaims, x, s.storageMap[x]) ==
        Counted(s.index, s.background, s.reclaims, x, s.storageMap[x])
    {
      FlushIndexKeyCounted(s, key, x, s.storageMap[x]);
    }
  }

  lemma FlushIndexKeyKeeps(s: State, key: Pubkey)
    requires Core(s) && CanFlushIndexKey(s, key)
    ensures Core(DoFlushIndexKey(s, key))
  {
    assert s.shrinkMap == map[] && s.dead == {};
    FlushIndexKeyLive(s, key);
    FlushIndexKeyReclaims(s, key);
    FlushIndexKeyFlush(s, key);
    FlushIndexKeyCounts(s, key);
    SameBatchKeeps(s, DoFlushIndexKey(s, key).background);
  }

  lemma FlushDropOrder(s: State)
    requires CanFlushDrop(s)
    requires CacheOk(s.cache, s.history, s.storageMap, s.background)
    requires RootsOk(s.roots, s.everRooted, s.unflushed, s.background)
    requires StoredSlotsOk(s.storageMap, s.everRooted, s.unflushed, s.background)
    requires CachePending(s.cache, s.everRooted, s.unflushed, s.background)
    requires OrderOk(s.everRooted, s.unflushed, s.background)
    requires StoringOk(s.storing, s.everRooted, s.cache, s.background)
    requires FlushOk(s.background, s.index, s.roots, s.cache, s.storageMap, s.storages)
    requires CachedLive(s.index, s.cache)
    ensures var s' := DoFlushDrop(s);
      && CacheOk(s'.cache, s.history, s.storageMap, s'.background)
      && RootsOk(s.roots, s.everRooted, s.unflushed, s'.background)
      && StoredSlotsOk(s.storageMap, s.everRooted, s.unflushed, s'.background)
      && CachePending(s'.cache, s.everRooted, s.unflushed, s'.background)
      && OrderOk(s.everRooted, s.unflushed, s'.background)
      && StoringOk(s.storing, s.everRooted, s'.cache, s'.background)
      && CachedLive(s.index, s'.cache)
  {}

  lemma FlushDropFlush(s: State)
    requires CanFlushDrop(s)
    requires FlushOk(s.background, s.index, s.roots, s.cache, s.storageMap, s.storages)
    requires IndexRooted(s.index, s.everRooted, s.roots)
    requires RootsOk(s.roots, s.everRooted, s.unflushed, s.background)
    requires OrderOk(s.everRooted, s.unflushed, s.background)
    ensures var s' := DoFlushDrop(s); FlushOk(s'.background, s.index, s.roots, s'.cache, s.storageMap, s.storages)
  {
    var b, b' := s.background, DoFlushDrop(s).background;
    assert b.phase.slot in Current(b) && Todo(b') == Todo(b);
    forall k | k in b'.written
      ensures (k, b'.written[k]) in s.index && s.index[(k, b'.written[k])].AppendVec? && b'.written[k] in s.roots
      ensures forall t | t in Todo(b') :: t < b'.written[k]
    {
      if k in b.phase.write && Cleans(b, b.phase.slot) { assert (k, b.phase.slot) in s.index; }
    }
  }

  lemma FlushDropIndexed(s: State)
    requires CanFlushDrop(s)
    requires CacheIndexed(s.index, s.cache, s.storing, s.background)
    requires CountsOk(s.index, s.background, s.reclaims, s.storageMap, s.counts)
    ensures var s' := DoFlushDrop(s);
      && CacheIndexed(s.index, s'.cache, s.storing, s'.background)
      && CountsOk(s.index, s'.background, s.reclaims, s.storageMap, s.counts)
  {
    IndexedKeeps(s, DoFlushDrop(s).cache, DoFlushDrop(s).background);
    SameStoredCounts(s, s.index, DoFlushDrop(s).background);
  }

  lemma FlushDropKeeps(s: State)
    requires Core(s) && CanFlushDrop(s)
    ensures Core(DoFlushDrop(s))
  {
    Quiet(s);
    FlushDropOrder(s);
    FlushDropFlush(s);
    FlushDropIndexed(s);
  }

  // ---------------------------------------------------------------- reclaims

  lemma ReclaimedCounted(index: Index, b: Background, reclaims: set<(Pubkey, Slot)>, rest: set<(Pubkey, Slot)>,
                         slot: Slot, id: StorageId)
    requires rest == Without(reclaims, slot)
    requires forall p | p in reclaims :: p !in index
    requires Unindexed(b, slot) == {}
    ensures KeysAt(reclaims, slot) <= Counted(index, b, reclaims, slot, id)
    ensures |Counted(index, b, rest, slot, id)| == |Counted(index, b, reclaims, slot, id)| - |KeysAt(reclaims, slot)|
  {
    var offsets, before, after := KeysAt(reclaims, slot), Counted(index, b, reclaims, slot, id),
      Counted(index, b, rest, slot, id);
    forall k | k in offsets ensures k !in Refs(index, slot, id) { assert (k, slot) in reclaims; }
    assert KeysAt(rest, slot) == {};
    assert before == after + offsets && after !! offsets;
  }

  lemma OtherReclaims(reclaims: set<(Pubkey, Slot)>, rest: set<(Pubkey, Slot)>, slot: Slot, x: Slot)
    requires rest == Without(reclaims, slot) && x != slot
    ensures KeysAt(rest, x) == KeysAt(reclaims, x)
  {}

  lemma ReclaimSlotCounts(index: Index, b: Background, reclaims: set<(Pubkey, Slot)>, rest: set<(Pubkey, Slot)>,
                          storageMap: StorageMap, counts: map<StorageId, int>, slot: Slot)
    requires rest == Without(reclaims, slot)
    requires slot in storageMap && storageMap[slot] in counts && Unindexed(b, slot) == {} && !b.Shrinking?
    requires forall p | p in reclaims :: p !in index
    requires forall x | x in storageMap && x != slot :: storageMap[x] != storageMap[slot]
    requires CountsOk(index, b, reclaims, storageMap, counts)
    ensures var id := storageMap[slot];
      CountsOk(index, b, rest, storageMap, counts[id := counts[id] - |KeysAt(reclaims, slot)|])
  {
    ReclaimedCounted(index, b, reclaims, rest, slot, storageMap[slot]);
    forall x | x in storageMap && x != slot
      ensures Counted(index, b, rest, x, storageMap[x]) == Counted(index, b, reclaims, x, storageMap[x])
    {
      OtherReclaims(reclaims, rest, slot, x);
      SameCounted(index, b, reclaims, index, b, rest, x, storageMap[x]);
    }
  }

  lemma ReclaimSlotDead(dead: set<Slot>, storageMap: StorageMap, counts: map<StorageId, int>, b: Background, slot: Slot,
                        count: int)
    requires slot in storageMap && storageMap[slot] in counts && slot !in Current(b) && Reclaiming(b)
    requires forall x | x in storageMap && x != slot :: storageMap[x] != storageMap[slot]
    requires counts[storageMap[slot]] != 0
    requires DeadOk(dead, storageMap, counts, b)
    ensures DeadOk(Died(dead, slot, count), storageMap, counts[storageMap[slot] := count], b)
  {}

  lemma FewerReclaims(reclaims: set<(Pubkey, Slot)>, rest: set<(Pubkey, Slot)>, index: Index, storageMap: StorageMap,
                      b: Background)
    requires ReclaimsOk(reclaims, index, storageMap, b) && rest <= reclaims
    ensures ReclaimsOk(rest, index, storageMap, b)
  {}

  /** The slot has a storage and its count is positive: it counts what is about to be subtracted. */
  lemma ReclaimMapped(s: State, slot: Slot)
    requires Pending(s.reclaims, slot)
    requires ReclaimsOk(s.reclaims, s.index, s.storageMap, s.background)
    requires CountsOk(s.index, s.background, s.reclaims, s.storageMap, s.counts)
    requires !s.background.Shrinking?
    ensures slot in s.storageMap && Unindexed(s.background, slot) == {} && slot !in Current(s.background)
    ensures s.storageMap[slot] in s.counts && s.counts[s.storageMap[slot]] > 0
  {
    var p :| p in s.reclaims && p.1 == slot;
    assert p == (p.0, slot);
    assert p.0 in Counted(s.index, s.background, s.reclaims, slot, s.storageMap[slot]);
  }

  lemma DistinctIds(s: State, slot: Slot)
    requires slot in s.storageMap
    requires MapsOk(s.storages, s.storageMap, s.shrinkMap)
    ensures forall x | x in s.storageMap && x != slot :: s.storageMap[x] != s.storageMap[slot]
  {
    forall x | x in s.storageMap && x != slot ensures s.storageMap[x] != s.storageMap[slot] {
      assert s.storages[s.storageMap[x]].slot == x && s.storages[s.storageMap[slot]].slot == slot;
    }
  }

  lemma SubtractedIds(s: State, id: StorageId, count: int)
    requires id in s.counts && !s.background.Shrinking?
    requires IdsOk(s.storages, s.nextId, s.counts)
    requires ShrinkOk(s.background, s.index, s.storages, s.storageMap, s.shrinkMap, s.counts)
    ensures IdsOk(s.storages, s.nextId, s.counts[id := count])
    ensures ShrinkOk(s.background, s.index, s.storages, s.storageMap, s.shrinkMap, s.counts[id := count])
  {}

  lemma ReclaimSlotSubtracts(s: State, slot: Slot, count: int)
    requires Pending(s.reclaims, slot) && Counts(s.storageMap, s.counts, slot) && Reclaiming(s.background)
    requires count == s.counts[s.storageMap[slot]] - |KeysAt(s.reclaims, slot)|
    requires ReclaimsOk(s.reclaims, s.index, s.storageMap, s.background)
    requires CountsOk(s.index, s.background, s.reclaims, s.storageMap, s.counts)
    requires MapsOk(s.storages, s.storageMap, s.shrinkMap)
    ensures CountsOk(s.index, s.background, Without(s.reclaims, slot), s.storageMap,
      s.counts[s.storageMap[slot] := count])
  {
    hide CountsOk, MapsOk, Without;
    ReclaimMapped(s, slot);
    DistinctIds(s, slot);
    ReclaimSlotCounts(s.index, s.background, s.reclaims, Without(s.reclaims, slot), s.storageMap, s.counts, slot);
  }

  lemma ReclaimSlotDies(s: State, slot: Slot, count: int)
    requires Pending(s.reclaims, slot) && Counts(s.storageMap, s.counts, slot) && Reclaiming(s.background)
    requires ReclaimsOk(s.reclaims, s.index, s.storageMap, s.background)
    requires CountsOk(s.index, s.background, s.reclaims, s.storageMap, s.counts)
    requires DeadOk(s.dead, s.storageMap, s.counts, s.background)
    requires MapsOk(s.storages, s.storageMap, s.shrinkMap)
    ensures DeadOk(Died(s.dead, slot, count), s.storageMap, s.counts[s.storageMap[slot] := count], s.background)
  {
    ReclaimMapped(s, slot);
    DistinctIds(s, slot);
    ReclaimSlotDead(s.dead, s.storageMap, s.counts, s.background, slot, count);
  }

  lemma ReclaimSlotKeeps(s: State, slot: Slot)
    requires Core(s) && CanReclaimSlot(s, slot)
    ensures Core(DoReclaimSlot(s, slot))
  {
    hide CountsOk, DeadOk, ReclaimsOk, MapsOk, StoredLive, FlushOk, OrderOk;
    var count := s.counts[s.storageMap[slot]] - |KeysAt(s.reclaims, slot)|;
    ReclaimSlotSubtracts(s, slot, count);
    ReclaimSlotDies(s, slot, count);
    FewerReclaims(s.reclaims, Without(s.reclaims, slot), s.index, s.storageMap, s.background);
    SubtractedIds(s, s.storageMap[slot], count);
  }

  /** A storage that counts nothing is referred to by nothing. */
  lemma DeadUnreferenced(s: State, slot: Slot)
    requires slot in s.dead && !s.background.Shrinking?
    requires CountsOk(s.index, s.background, s.reclaims, s.storageMap, s.counts)
    requires DeadOk(s.dead, s.storageMap, s.counts, s.background)
    requires CachedLive(s.index, s.cache) && CacheOk(s.cache, s.history, s.storageMap, s.background)
    requires StoredLive(s.index, s.storages, s.storageMap, s.shrinkMap) && s.shrinkMap == map[]
    ensures forall p | p in s.index :: p.1 != slot
  {
    var id := s.storageMap[slot];
    assert Counted(s.index, s.background, s.reclaims, slot, id) == {};
    forall p | p in s.index ensures p.1 != slot {
      assert p == (p.0, p.1);
      assert p.0 !in Refs(s.index, slot, id);
    }
  }

  lemma KillRootRoots(s: State, slot: Slot)
    requires CanKillRoot(s, slot)
    requires forall p | p in s.index :: p.1 != slot
    requires RootsOk(s.roots, s.everRooted, s.unflushed, s.background)
    requires StoredSlotsOk(s.storageMap, s.everRooted, s.unflushed, s.background)
    requires DeadOk(s.dead, s.storageMap, s.counts, s.background)
    requires IndexRooted(s.index, s.everRooted, s.roots)
    requires FlushOk(s.background, s.index, s.roots, s.cache, s.storageMap, s.storages)
    ensures var s' := DoKillRoot(s, slot);
      && RootsOk(s'.roots, s.everRooted, s.unflushed, s.background)
      && IndexRooted(s.index, s.everRooted, s'.roots)
      && FlushOk(s.background, s.index, s'.roots, s.cache, s.storageMap, s.storages)
  {}

  lemma KillRootKeeps(s: State, slot: Slot)
    requires Core(s) && CanKillRoot(s, slot)
    ensures Core(DoKillRoot(s, slot))
  {
    assert !s.background.Shrinking? && s.shrinkMap == map[];
    DeadUnreferenced(s, slot);
    KillRootRoots(s, slot);
  }

  lemma RemoveStorageStructure(s: State, slot: Slot)
    requires CanRemoveStorage(s, slot) && s.shrinkMap == map[]
    requires forall p | p in s.index :: p.1 != slot
    requires StoredLive(s.index, s.storages, s.storageMap, s.shrinkMap)
    requires MapsOk(s.storages, s.storageMap, s.shrinkMap)
    ensures var s' := DoRemoveStorage(s, slot);
      StoredLive(s.index, s.storages, s'.storageMap, s.shrinkMap) && MapsOk(s.storages, s'.storageMap, s.shrinkMap)
  {}

  lemma FewerStorages(s: State, m: StorageMap)
    requires forall x | x in m :: x in s.storageMap && m[x] == s.storageMap[x]
    requires CacheOk(s.cache, s.history, s.storageMap, s.background)
    requires StoredSlotsOk(s.storageMap, s.everRooted, s.unflushed, s.background)
    requires CountsOk(s.index, s.background, s.reclaims, s.storageMap, s.counts)
    ensures CacheOk(s.cache, s.history, m, s.background)
    ensures StoredSlotsOk(m, s.everRooted, s.unflushed, s.background)
    ensures CountsOk(s.index, s.background, s.reclaims, m, s.counts)
  {}

  lemma RemoveStorageFlush(s: State, slot: Slot)
    requires CanRemoveStorage(s, slot) && slot !in Current(s.background)
    requires FlushOk(s.background, s.index, s.roots, s.cache, s.storageMap, s.storages)
    ensures FlushOk(s.background, s.index, s.roots, s.cache, DoRemoveStorage(s, slot).storageMap, s.storages)
  {}

  lemma RemoveStorageKeeps(s: State, slot: Slot)
    requires Core(s) && CanRemoveStorage(s, slot)
    ensures Core(DoRemoveStorage(s, slot))
  {
    assert !s.background.Shrinking? && s.shrinkMap == map[];
    DeadUnreferenced(s, slot);
    RemoveStorageStructure(s, slot);
    FewerStorages(s, s.storageMap - {slot});
    RemoveStorageFlush(s, slot);
  }

  lemma FlushReclaimedFlush(s: State)
    requires CanFlushReclaimed(s)
    requires FlushOk(s.background, s.index, s.roots, s.cache, s.storageMap, s.storages)
    requires CountsOk(s.index, s.background, s.reclaims, s.storageMap, s.counts)
    ensures FlushOk(DoFlushReclaimed(s).background, s.index, s.roots, s.cache, s.storageMap, s.storages)
    ensures SameBatch(s.background, DoFlushReclaimed(s).background)
    ensures CountsOk(s.index, DoFlushReclaimed(s).background, s.reclaims, s.storageMap, s.counts)
  {
    assert SameBatch(s.background, DoFlushReclaimed(s).background);
    SameStoredCounts(s, s.index, DoFlushReclaimed(s).background);
  }

  lemma FlushReclaimedKeeps(s: State)
    requires Core(s) && CanFlushReclaimed(s)
    ensures Core(DoFlushReclaimed(s))
  {
    FlushReclaimedFlush(s);
    SameBatchKeeps(s, DoFlushReclaimed(s).background);
    IndexedKeeps(s, s.cache, DoFlushReclaimed(s).background);
  }

  lemma CleanReclaimedKeeps(s: State)
    requires Core(s) && CanCleanReclaimed(s)
    ensures Core(DoCleanReclaimed(s))
  {
    SameStoredCounts(s, s.index, DoCleanReclaimed(s).background);
  }

  // ---------------------------------------------------------------- cleaning and purging

  lemma CleanedCounted(index: Index, b: Background, reclaims: set<(Pubkey, Slot)>, key: Pubkey, slots: set<Slot>,
                       x: Slot, id: StorageId)
    requires x in slots ==> (key, x) in index && index[(key, x)] == AppendVec(id)
    ensures Counted(DropKey(index, key, slots), b, reclaims + Pairs(key, slots), x, id) ==
      Counted(index, b, reclaims, x, id)
  {
    assert KeysAt(reclaims + Pairs(key, slots), x) == KeysAt(reclaims, x) + if x in slots then {key} else {};
    assert Refs(DropKey(index, key, slots), x, id) == Refs(index, x, id) - if x in slots then {key} else {};
    assert x in slots ==> key in Refs(index, x, id);
  }

  lemma CleanKeyId(s: State, key: Pubkey, slots: set<Slot>, x: Slot)
    requires CanCleanKey(s, key, slots) && s.shrinkMap == map[]
    requires StoredLive(s.index, s.storages, s.storageMap, s.shrinkMap)
    requires x in slots
    ensures x in s.storageMap && s.index[(key, x)] == AppendVec(s.storageMap[x])
  {
    assert (key, x) in s.index;
  }

  lemma CleanKeyCounts(s: State, key: Pubkey, slots: set<Slot>)
    requires CanCleanKey(s, key, slots) && s.shrinkMap == map[]
    requires StoredLive(s.index, s.storages, s.storageMap, s.shrinkMap)
    requires CountsOk(s.index, s.background, s.reclaims, s.storageMap, s.counts)
    ensures CountsOk(DropKey(s.index, key, slots), s.background, s.reclaims + Pairs(key, slots), s.storageMap, s.counts)
  {
    var index', reclaims' := DropKey(s.index, key, slots), s.reclaims + Pairs(key, slots);
    forall x | x in s.storageMap
      ensures Counted(index', s.background, reclaims', x, s.storageMap[x]) ==
        Counted(s.index, s.background, s.reclaims, x, s.storageMap[x])
    {
      if x in slots { CleanKeyId(s, key, slots, x); }
      CleanedCounted(s.index, s.background, s.reclaims, key, slots, x, s.storageMap[x]);
    }
  }

  lemma CleanKeyReclaims(s: State, key: Pubkey, slots: set<Slot>)
    requires CanCleanKey(s, key, slots) && s.shrinkMap == map[]
    requires StoredLive(s.index, s.storages, s.storageMap, s.shrinkMap)
    requires ReclaimsOk(s.reclaims, s.index, s.storageMap, s.background)
    ensures var s' := DoCleanKey(s, key, slots);
      ReclaimsOk(s'.reclaims, s'.index, s.storageMap, s.background) && Shrunk(s.index, s'.index)
  {}

  lemma CleanKeyKeeps(s: State, key: Pubkey, slots: set<Slot>)
    requires Core(s) && CanCleanKey(s, key, slots)
    ensures Core(DoCleanKey(s, key, slots))
  {
    assert s.shrinkMap == map[];
    CleanKeyCounts(s, key, slots);
    CleanKeyReclaims(s, key, slots);
    ShrunkKeeps(s, DoCleanKey(s, key, slots).index);
  }

  lemma PurgeKeyIndex(s: State, key: Pubkey)
    requires CanPurgeKey(s, key)
    requires StoredSlotsOk(s.storageMap, s.everRooted, s.unflushed, s.background)
    requires MapsOk(s.storages, s.storageMap, s.shrinkMap)
    requires StoredLive(s.index, s.storages, s.storageMap, s.shrinkMap)
    requires PurgeOk(s.background, s.everRooted, s.index)
    ensures var s' := DoPurgeKey(s, key);
      Shrunk(s.index, s'.index) && SameStored(s.index, s'.index) && PurgeOk(s'.background, s.everRooted, s'.index)
  {
    assert s.background.purged !in s.storageMap && s.background.purged !in s.shrinkMap;
  }

  lemma PurgeKeyKeeps(s: State, key: Pubkey)
    requires Core(s) && CanPurgeKey(s, key)
    ensures Core(DoPurgeKey(s, key))
  {
    var s' := DoPurgeKey(s, key);
    PurgeKeyIndex(s, key);
    ShrunkKeeps(s, s'.index);
    SameStoredCounts(s, s'.index, s'.background);
    Quiet(s);
  }

  // ---------------------------------------------------------------- shrinking

  /** A new storage holding some of what another storage of the slot holds. */
  lemma ShrinkSlotContent(s: State, slot: Slot, keys: set<Pubkey>)
    requires slot in s.storageMap
    requires ContentOk(s.storages, s.everRooted, s.history)
    requires MapsOk(s.storages, s.storageMap, s.shrinkMap)
    ensures var storage := Storage(slot, Restrict(AccountsOf(s.storages, s.storageMap[slot]), keys));
      ContentOk(s.storages[s.nextId := storage], s.everRooted, s.history)
  {}

  lemma ShrinkSlotMaps(s: State, slot: Slot, storage: Storage, count: int)
    requires slot in s.storageMap && slot !in s.shrinkMap && storage.slot == slot
    requires IdsOk(s.storages, s.nextId, s.counts)
    requires MapsOk(s.storages, s.storageMap, s.shrinkMap)
    ensures IdsOk(s.storages[s.nextId := storage], s.nextId + 1, s.counts[s.nextId := count])
    ensures MapsOk(s.storages[s.nextId := storage], s.storageMap, s.shrinkMap[slot := s.nextId])
  {}

  lemma ShrinkSlotLive(s: State, slot: Slot, storage: Storage)
    requires s.nextId !in s.storages && slot !in s.shrinkMap
    requires StoredLive(s.index, s.storages, s.storageMap, s.shrinkMap)
    ensures StoredLive(s.index, s.storages[s.nextId := storage], s.storageMap, s.shrinkMap[slot := s.nextId])
  {}

  lemma ShrinkSlotNew(s: State, slot: Slot, zero: set<Pubkey>)
    requires CanShrinkSlot(s, slot, zero)
    requires StoredLive(s.index, s.storages, s.storageMap, s.shrinkMap)
    requires CachedLive(s.index, s.cache)
    requires IdsOk(s.storages, s.nextId, s.counts)
    requires MapsOk(s.storages, s.storageMap, s.shrinkMap)
    ensures var s' := DoShrinkSlot(s, slot, zero);
      ShrinkSlotOk(s.index, s'.storages, s.storageMap[slot], s'.counts, slot, s'.background.slots[slot])
  {
    var mapped := s.storageMap[slot];
    var alive := Refs(s.index, slot, mapped) - zero;
    forall p | p in s.index && p.1 == slot ensures p.0 in alive || p.0 in zero {
      assert p == (p.0, slot);
    }
    forall k ensures k !in Refs(s.index, slot, s.nextId) {
      assert (k, slot) in s.index && s.index[(k, slot)].AppendVec? ==> s.index[(k, slot)].id in s.storages;
    }
    assert Rewritten(s.index, slot, s.nextId, alive) == alive;
    forall k | k in alive ensures k in AccountsOf(s.storages, mapped) { assert (k, slot) in s.index; }
  }

  lemma ShrinkSlotShrink(s: State, slot: Slot, storage: Storage, count: int, phase: ShrinkPhase)
    requires s.background.Shrinking? && slot !in s.background.slots && slot in s.storageMap && phase.id == s.nextId
    requires ShrinkSlotOk(s.index, s.storages[s.nextId := storage], s.storageMap[slot], s.counts[s.nextId := count],
      slot, phase)
    requires s.nextId !in s.storages && s.nextId !in s.counts
    requires MapsOk(s.storages, s.storageMap, s.shrinkMap)
    requires ShrinkOk(s.background, s.index, s.storages, s.storageMap, s.shrinkMap, s.counts)
    ensures ShrinkOk(Shrinking(s.background.slots[slot := phase]), s.index, s.storages[s.nextId := storage],
      s.storageMap,
                     s.shrinkMap[slot := s.nextId], s.counts[s.nextId := count])
  {
    var slots := s.background.slots;
    forall x | x in slots
      ensures ShrinkSlotOk(s.index, s.storages[s.nextId := storage], s.storageMap[x], s.counts[s.nextId := count], x,
        slots[x])
    {
      assert InMap(s.shrinkMap, x, slots[x].id);
    }
  }

  lemma ShrinkSlotKeeps(s: State, slot: Slot, zero: set<Pubkey>)
    requires Core(s) && CanShrinkSlot(s, slot, zero)
    ensures Core(DoShrinkSlot(s, slot, zero))
  {
    var alive := Refs(s.index, slot, s.storageMap[slot]) - zero;
    var storage := Storage(slot, Restrict(AccountsOf(s.storages, s.storageMap[slot]), alive));
    ShrinkSlotContent(s, slot, alive);
    ShrinkSlotMaps(s, slot, storage, |alive|);
    ShrinkSlotLive(s, slot, storage);
    ShrinkSlotNew(s, slot, zero);
    ShrinkSlotShrink(s, slot, storage, |alive|, ShrinkIndex(s.nextId, alive, zero));
    ShrinkSlotCounts(s, slot, ShrinkIndex(s.nextId, alive, zero), |alive|);
    Quiet(s);
  }

  lemma UnusedCount(index: Index, b: Background, reclaims: set<(Pubkey, Slot)>, storageMap: StorageMap,
                    counts: map<StorageId, int>, id: StorageId, count: int)
    requires CountsOk(index, b, reclaims, storageMap, counts)
    requires forall x | x in storageMap :: storageMap[x] != id
    ensures CountsOk(index, b, reclaims, storageMap, counts[id := count])
  {}

  lemma ShrinkSlotCounts(s: State, slot: Slot, phase: ShrinkPhase, count: int)
    requires s.background.Shrinking? && slot !in s.background.slots && phase.ShrinkIndex?
    requires forall x | x in s.storageMap :: s.storageMap[x] != s.nextId
    requires CountsOk(s.index, s.background, s.reclaims, s.storageMap, s.counts)
    ensures CountsOk(s.index, Shrinking(s.background.slots[slot := phase]), s.reclaims, s.storageMap,
      s.counts[s.nextId := count])
  {
    var b' := Shrinking(s.background.slots[slot := phase]);
    SameStoredCounts(s, s.index, b');
    UnusedCount(s.index, b', s.reclaims, s.storageMap, s.counts, s.nextId, count);
  }

  /** The two indexes agree on every entry at another slot. */
  ghost predicate SameElsewhere(a: Index, a': Index, slot: Slot) {
    && (forall p | p in a && p.1 != slot :: p in a' && a'[p] == a[p])
    && (forall p | p in a' && p.1 != slot :: p in a && a[p] == a'[p])
  }

  lemma ElsewhereRefs(a: Index, a': Index, slot: Slot, x: Slot, id: StorageId)
    requires SameElsewhere(a, a', slot) && x != slot
    ensures Refs(a', x, id) == Refs(a, x, id)
  {
    forall k ensures k in Refs(a', x, id) <==> k in Refs(a, x, id) {
      assert (k, x) in a <==> (k, x) in a';
    }
  }

  /** Rewriting the index entries of one slot being shrunk. */
  lemma ShrinkingElsewhere(s: State, slot: Slot, a': Index, phase: ShrinkPhase)
    requires s.background.Shrinking? && slot in s.background.slots && SameElsewhere(s.index, a', slot)
    requires phase.id == s.background.slots[slot].id
    requires ShrinkOk(s.background, s.index, s.storages, s.storageMap, s.shrinkMap, s.counts)
    requires slot in s.storageMap ==> ShrinkSlotOk(a', s.storages, s.storageMap[slot], s.counts, slot, phase)
    ensures var b' := s.background.(slots := s.background.slots[slot := phase]);
      ShrinkOk(b', a', s.storages, s.storageMap, s.shrinkMap, s.counts)
  {
    forall x | x in s.background.slots && x != slot
      ensures ShrinkSlotOk(a', s.storages, s.storageMap[x], s.counts, x, s.background.slots[x])
    {
      ElsewhereRefs(s.index, a', slot, x, s.background.slots[x].id);
    }
  }

  lemma ShrinkingCounts(s: State, slot: Slot, a': Index, phase: ShrinkPhase)
    requires s.background.Shrinking? && slot in s.background.slots && SameElsewhere(s.index, a', slot)
    requires s.background.slots[slot].ShrinkIndex? && phase.ShrinkIndex?
    requires CountsOk(s.index, s.background, s.reclaims, s.storageMap, s.counts)
    ensures var b' := s.background.(slots := s.background.slots[slot := phase]);
      CountsOk(a', b', s.reclaims, s.storageMap, s.counts)
  {
    var b' := s.background.(slots := s.background.slots[slot := phase]);
    forall x | x in s.storageMap && !BeingReplaced(b', x)
      ensures Counted(a', b', s.reclaims, x, s.storageMap[x]) ==
        Counted(s.index, s.background, s.reclaims, x, s.storageMap[x])
    {
      ElsewhereRefs(s.index, a', slot, x, s.storageMap[x]);
    }
  }

  lemma ShrinkIndexKeySlot(s: State, slot: Slot, key: Pubkey)
    requires CanShrinkIndexKey(s, slot, key) && slot in s.storageMap
    requires ShrinkSlotOk(s.index, s.storages, s.storageMap[slot], s.counts, slot, s.background.slots[slot])
    ensures var s' := DoShrinkIndexKey(s, slot, key);
      ShrinkSlotOk(s'.index, s.storages, s.storageMap[slot], s.counts, slot, s'.background.slots[slot])
  {
    var s' := DoShrinkIndexKey(s, slot, key);
    var phase := s.background.slots[slot];
    assert Rewritten(s'.index, slot, phase.id, phase.left - {key}) == Rewritten(s.index, slot, phase.id, phase.left);
  }

  lemma ShrinkIndexKeyStructure(s: State, slot: Slot, key: Pubkey)
    requires CanShrinkIndexKey(s, slot, key) && (key, slot) in s.index
    requires InMap(s.shrinkMap, slot, s.background.slots[slot].id) &&
      key in AccountsOf(s.storages, s.background.slots[slot].id)
    requires CachedLive(s.index, s.cache) && StoredLive(s.index, s.storages, s.storageMap, s.shrinkMap)
    requires IndexRooted(s.index, s.everRooted, s.roots)
    ensures var s' := DoShrinkIndexKey(s, slot, key);
      && CachedLive(s'.index, s.cache) && StoredLive(s'.index, s.storages, s.storageMap, s.shrinkMap)
      && IndexRooted(s'.index, s.everRooted, s.roots) && SameElsewhere(s.index, s'.index, slot)
  {}

  lemma ShrinkIndexKeyKeeps(s: State, slot: Slot, key: Pubkey)
    requires Core(s) && CanShrinkIndexKey(s, slot, key)
    ensures Core(DoShrinkIndexKey(s, slot, key))
  {
    var s' := DoShrinkIndexKey(s, slot, key);
    ShrinkIndexKeyStructure(s, slot, key);
    ShrinkIndexKeySlot(s, slot, key);
    ShrinkingElsewhere(s, slot, s'.index, s'.background.slots[slot]);
    ShrinkingCounts(s, slot, s'.index, s'.background.slots[slot]);
    Quiet(s);
  }

  lemma ShrinkZeroKeySlot(s: State, slot: Slot, key: Pubkey)
    requires CanShrinkZeroKey(s, slot, key) && slot in s.storageMap
    requires StoredLive(s.index, s.storages, s.storageMap, s.shrinkMap)
    requires ShrinkSlotOk(s.index, s.storages, s.storageMap[slot], s.counts, slot, s.background.slots[slot])
    ensures var s' := DoShrinkZeroKey(s, slot, key);
      && ShrinkSlotOk(s'.index, s.storages, s.storageMap[slot], s.counts, slot, s'.background.slots[slot])
      && SameElsewhere(s.index, s'.index, slot) && Shrunk(s.index, s'.index)
  {
    var s' := DoShrinkZeroKey(s, slot, key);
    var phase := s.background.slots[slot];
    assert (key, slot) in s.index ==> s.index[(key, slot)] != AppendVec(phase.id);
    assert Refs(s'.index, slot, phase.id) == Refs(s.index, slot, phase.id);
  }

  lemma ShrinkZeroKeyKeeps(s: State, slot: Slot, key: Pubkey)
    requires Core(s) && CanShrinkZeroKey(s, slot, key)
    ensures Core(DoShrinkZeroKey(s, slot, key))
  {
    var s' := DoShrinkZeroKey(s, slot, key);
    ShrinkZeroKeySlot(s, slot, key);
    ShrunkKeeps(s, s'.index);
    ShrinkingElsewhere(s, slot, s'.index, s'.background.slots[slot]);
    ShrinkingCounts(s, slot, s'.index, s'.background.slots[slot]);
    Quiet(s);
  }

  lemma ShrinkSwapStructure(s: State, slot: Slot)
    requires CanShrinkSwap(s, slot)
    requires CachedLive(s.index, s.cache) && StoredLive(s.index, s.storages, s.storageMap, s.shrinkMap)
    requires MapsOk(s.storages, s.storageMap, s.shrinkMap)
    requires ShrinkOk(s.background, s.index, s.storages, s.storageMap, s.shrinkMap, s.counts)
    ensures var s' := DoShrinkSwap(s, slot);
      && StoredLive(s.index, s.storages, s'.storageMap, s.shrinkMap) && MapsOk(s.storages, s'.storageMap, s.shrinkMap)
      && ShrinkOk(s'.background, s.index, s.storages, s'.storageMap, s.shrinkMap, s.counts)
      && s'.storageMap.Keys == s.storageMap.Keys
  {}

  lemma ShrinkSwapCounts(s: State, slot: Slot, id: StorageId, phase: ShrinkPhase)
    requires s.background.Shrinking? && s.reclaims == {} && phase.ShrinkDrop?
    requires id in s.counts && s.counts[id] == |Rewritten(s.index, slot, id, {})|
    requires CountsOk(s.index, s.background, s.reclaims, s.storageMap, s.counts)
    ensures CountsOk(s.index, Shrinking(s.background.slots[slot := phase]), s.reclaims, s.storageMap[slot := id],
      s.counts)
  {
    hide Refs, KeysAt;
    var b' := Shrinking(s.background.slots[slot := phase]);
    assert Counted(s.index, b', {}, slot, id) == Rewritten(s.index, slot, id, {});
    forall x | x in s.storageMap && !BeingReplaced(b', x) && x != slot
      ensures !BeingReplaced(s.background, x)
      ensures Counted(s.index, b', {}, x, s.storageMap[x]) == Counted(s.index, s.background, {}, x, s.storageMap[x])
    {
      SameCounted(s.index, s.background, {}, s.index, b', {}, x, s.storageMap[x]);
    }
  }

  lemma ShrinkSwapCounted(s: State, slot: Slot)
    requires CanShrinkSwap(s, slot) && s.reclaims == {} && slot in s.storageMap
    requires ShrinkSlotOk(s.index, s.storages, s.storageMap[slot], s.counts, slot, s.background.slots[slot])
    requires CountsOk(s.index, s.background, s.reclaims, s.storageMap, s.counts)
    ensures var s' := DoShrinkSwap(s, slot); CountsOk(s.index, s'.background, s.reclaims, s'.storageMap, s.counts)
  {
    var id := s.background.slots[slot].id;
    ShrinkSwapCounts(s, slot, id, ShrinkDrop(id));
  }

  lemma ShrinkSwapSlots(s: State, m: StorageMap, b': Background)
    requires m.Keys == s.storageMap.Keys && s.background.Shrinking? && b'.Shrinking?
    requires CacheOk(s.cache, s.history, s.storageMap, s.background)
    requires StoredSlotsOk(s.storageMap, s.everRooted, s.unflushed, s.background)
    ensures CacheOk(s.cache, s.history, m, b')
    ensures StoredSlotsOk(m, s.everRooted, s.unflushed, b')
  {
    assert forall x | x in m :: x in s.storageMap.Keys;
  }

  lemma ShrinkSwapKeeps(s: State, slot: Slot)
    requires Core(s) && CanShrinkSwap(s, slot)
    ensures Core(DoShrinkSwap(s, slot))
  {
    Quiet(s);
    ShrinkSwapStructure(s, slot);
    ShrinkSwapSlots(s, DoShrinkSwap(s, slot).storageMap, DoShrinkSwap(s, slot).background);
    ShrinkSwapCounted(s, slot);
  }

  lemma ShrinkEndStructure(s: State, slot: Slot)
    requires CanShrinkEnd(s, slot)
    requires StoredLive(s.index, s.storages, s.storageMap, s.shrinkMap)
    requires MapsOk(s.storages, s.storageMap, s.shrinkMap)
    requires ShrinkOk(s.background, s.index, s.storages, s.storageMap, s.shrinkMap, s.counts)
    ensures var s' := DoShrinkEnd(s, slot);
      && StoredLive(s.index, s.storages, s.storageMap, s'.shrinkMap) && MapsOk(s.storages, s.storageMap, s'.shrinkMap)
      && ShrinkOk(s'.background, s.index, s.storages, s.storageMap, s'.shrinkMap, s.counts)
  {}

  lemma ShrinkEndKeeps(s: State, slot: Slot)
    requires Core(s) && CanShrinkEnd(s, slot)
    ensures Core(DoShrinkEnd(s, slot))
  {
    Quiet(s);
    ShrinkEndStructure(s, slot);
    ShrinkEndCounts(s, slot);
  }

  lemma ShrinkEndCounts(s: State, slot: Slot)
    requires CanShrinkEnd(s, slot)
    requires CountsOk(s.index, s.background, s.reclaims, s.storageMap, s.counts)
    ensures CountsOk(s.index, DoShrinkEnd(s, slot).background, s.reclaims, s.storageMap, s.counts)
  {
    SameStoredCounts(s, s.index, DoShrinkEnd(s, slot).background);
  }

  // ---------------------------------------------------------------- steps that touch little

  lemma StoreCacheContent(s: State, t: nat, slot: Slot, key: Pubkey, a: Account)
    requires CanStoreCache(s, t, slot, key, a)
    requires CachedLive(s.index, s.cache)
    requires ContentOk(s.storages, s.everRooted, s.history)
    requires CacheOk(s.cache, s.history, s.storageMap, s.background)
    requires StoredSlotsOk(s.storageMap, s.everRooted, s.unflushed, s.background)
    requires CachePending(s.cache, s.everRooted, s.unflushed, s.background)
    ensures var s' := DoStoreCache(s, t, slot, key, a);
      && CachedLive(s.index, s'.cache) && ContentOk(s.storages, s.everRooted, s'.history)
      && CacheOk(s'.cache, s'.history, s.storageMap, s.background)
      && CachePending(s'.cache, s.everRooted, s.unflushed, s.background)
  {}

  lemma StoreCacheFlight(s: State, t: nat, slot: Slot, key: Pubkey, a: Account)
    requires CanStoreCache(s, t, slot, key, a)
    requires StoringOk(s.storing, s.everRooted, s.cache, s.background)
    ensures var s' := DoStoreCache(s, t, slot, key, a); StoringOk(s'.storing, s.everRooted, s'.cache, s.background)
  {}

  lemma MoreInFlight(storing: map<nat, (Pubkey, Slot)>, t: nat, entry: (Pubkey, Slot), k: Pubkey, x: Slot)
    requires t !in storing && (InFlight(storing, k, x) || entry == (k, x))
    ensures InFlight(storing[t := entry], k, x)
  {
    var storing' := storing[t := entry];
    if InFlight(storing, k, x) {
      var u :| u in storing && storing[u] == (k, x);
      assert u in storing' && storing'[u] == (k, x);
    } else {
      assert t in storing' && storing'[t] == (k, x);
    }
  }

  lemma StoreCacheIndexed(s: State, t: nat, slot: Slot, key: Pubkey, a: Account)
    requires CanStoreCache(s, t, slot, key, a)
    requires CacheIndexed(s.index, s.cache, s.storing, s.background)
    ensures var s' := DoStoreCache(s, t, slot, key, a); CacheIndexed(s.index, s'.cache, s'.storing, s.background)
  {
    var s' := DoStoreCache(s, t, slot, key, a);
    forall x, k | x in s'.cache && k in s'.cache[x]
      ensures x in Current(s.background) || (s.background.Purging? && s.background.purged == x) || (k, x) in s.index ||
        InFlight(s'.storing, k, x)
    {
      if InFlight(s.storing, k, x) || (k, x) == (key, slot) { MoreInFlight(s.storing, t, (key, slot), k, x); }
    }
  }

  lemma StoreCacheFlush(s: State, t: nat, slot: Slot, key: Pubkey, a: Account)
    requires CanStoreCache(s, t, slot, key, a)
    requires RootsOk(s.roots, s.everRooted, s.unflushed, s.background)
    requires FlushOk(s.background, s.index, s.roots, s.cache, s.storageMap, s.storages)
    ensures FlushOk(s.background, s.index, s.roots, DoStoreCache(s, t, slot, key, a).cache, s.storageMap, s.storages)
  {}

  lemma StoreCacheKeeps(s: State, t: nat, slot: Slot, key: Pubkey, a: Account)
    requires Core(s) && CanStoreCache(s, t, slot, key, a)
    ensures Core(DoStoreCache(s, t, slot, key, a))
  {
    StoreCacheContent(s, t, slot, key, a);
    StoreCacheFlight(s, t, slot, key, a);
    StoreCacheIndexed(s, t, slot, key, a);
    StoreCacheFlush(s, t, slot, key, a);
  }

  lemma AddRootKeeps(s: State, slot: Slot)
    requires Core(s) && CanAddRoot(s, slot)
    ensures Core(DoAddRoot(s, slot))
  {}

  lemma BeginFlushOrder(s: State, b': Background)
    requires s.background.Idle? && b'.Flushing? && Todo(b') <= s.unflushed && Current(b') == {} && Flushed(b') == {}
    requires forall t, u | t in Todo(b') && u in s.unflushed && u !in Todo(b') :: t < u
    requires RootsOk(s.roots, s.everRooted, s.unflushed, s.background)
    requires OrderOk(s.everRooted, s.unflushed, s.background)
    requires CachePending(s.cache, s.everRooted, s.unflushed, s.background)
    requires StoredSlotsOk(s.storageMap, s.everRooted, s.unflushed, s.background)
    ensures var unflushed' := s.unflushed - Todo(b');
      && RootsOk(s.roots, s.everRooted, unflushed', b') && OrderOk(s.everRooted, unflushed', b')
      && CachePending(s.cache, s.everRooted, unflushed', b') &&
           StoredSlotsOk(s.storageMap, s.everRooted, unflushed', b')
  {}

  lemma BeginFlushKeeps(s: State, upTo: Slot, clean: Option<Slot>, mark: bool)
    requires Core(s) && CanBeginFlush(s, upTo, clean, mark)
    ensures Core(DoBeginFlush(s, upTo, clean, mark))
  {
    Quiet(s);
    BeginFlushOrder(s, DoBeginFlush(s, upTo, clean, mark).background);
    SameStoredCounts(s, s.index, DoBeginFlush(s, upTo, clean, mark).background);
  }

  lemma EndFlushKeeps(s: State)
    requires Core(s) && CanEndFlush(s)
    ensures Core(DoEndFlush(s))
  {
    Quiet(s);
    SameStoredCounts(s, s.index, DoEndFlush(s).background);
  }

  lemma BeginCleanKeeps(s: State)
    requires Core(s) && CanBeginClean(s)
    ensures Core(DoBeginClean(s))
  {
    Quiet(s);
    SameStoredCounts(s, s.index, DoBeginClean(s).background);
  }

  lemma CleanReclaimsKeeps(s: State)
    requires Core(s) && CanCleanReclaims(s)
    ensures Core(DoCleanReclaims(s))
  {
    assert s.dead == {} && DoCleanReclaims(s).dead == {};
    SameStoredCounts(s, s.index, DoCleanReclaims(s).background);
  }

  lemma EndCleanKeeps(s: State)
    requires Core(s) && CanEndClean(s)
    ensures Core(DoEndClean(s))
  {
    assert s.dead == {} && DoEndClean(s).dead == {};
    SameStoredCounts(s, s.index, DoEndClean(s).background);
  }

  lemma BeginShrinkKeeps(s: State)
    requires Core(s) && CanBeginShrink(s)
    ensures Core(DoBeginShrink(s))
  {
    Quiet(s);
    SameStoredCounts(s, s.index, DoBeginShrink(s).background);
  }

  lemma EndShrinkKeeps(s: State)
    requires Core(s) && CanEndShrink(s)
    ensures Core(DoEndShrink(s))
  {
    Quiet(s);
    SameStoredCounts(s, s.index, DoEndShrink(s).background);
  }

  lemma BeginPurgeKeeps(s: State, slot: Slot)
    requires Core(s) && CanBeginPurge(s, slot)
    ensures Core(DoBeginPurge(s, slot))
  {
    Quiet(s);
    SameStoredCounts(s, s.index, DoBeginPurge(s, slot).background);
    PurgedKeys(s, slot);
  }

  lemma PurgedKeys(s: State, slot: Slot)
    requires CanBeginPurge(s, slot)
    requires CachedLive(s.index, s.cache) && StoredLive(s.index, s.storages, s.storageMap, s.shrinkMap)
    requires StoredSlotsOk(s.storageMap, s.everRooted, s.unflushed, s.background)
    requires MapsOk(s.storages, s.storageMap, s.shrinkMap)
    ensures PurgeOk(DoBeginPurge(s, slot).background, s.everRooted, s.index)
    ensures StoringOk(s.storing, s.everRooted, s.cache, s.background) ==>
      StoringOk(s.storing, s.everRooted, s.cache, DoBeginPurge(s, slot).background)
  {}

  lemma EndPurgeContent(s: State)
    requires CanEndPurge(s)
    requires CachedLive(s.index, s.cache) && PurgeOk(s.background, s.everRooted, s.index)
    requires ContentOk(s.storages, s.everRooted, s.history)
    requires CacheOk(s.cache, s.history, s.storageMap, s.background)
    requires StoringOk(s.storing, s.everRooted, s.cache, s.background)
    requires CacheIndexed(s.index, s.cache, s.storing, s.background)
    ensures var s' := DoEndPurge(s);
      && CachedLive(s.index, s'.cache) && ContentOk(s.storages, s.everRooted, s'.history)
      && CacheOk(s'.cache, s'.history, s.storageMap, s'.background)
      && StoringOk(s.storing, s.everRooted, s'.cache, s'.background)
      && CacheIndexed(s.index, s'.cache, s.storing, s'.background)
  {
    IndexedKeeps(s, DoEndPurge(s).cache, DoEndPurge(s).background);
  }

  lemma EndPurgeKeeps(s: State)
    requires Core(s) && CanEndPurge(s)
    ensures Core(DoEndPurge(s))
  {
    Quiet(s);
    SameStoredCounts(s, s.index, DoEndPurge(s).background);
    EndPurgeContent(s);
  }

  // ---------------------------------------------------------------- every step

  lemma ReadersKeep(s: State, readers': map<nat, Reader>)
    requires Core(s)
    ensures Core(s.(readers := readers'))
  {}

  /** The invariant, as one term. */
  ghost predicate Holds(s: State) { Core(s) }

  lemma StoreNextKeeps(s: State, step: Step, s': State)
    requires Holds(s) && StoreNext(s, step, s')
    ensures Holds(s')
  {
    match step {
      case StoreCache(t, slot, key, a) => StoreCacheKeeps(s, t, slot, key, a);
      case StoreIndex(t) => StoreIndexKeeps(s, t);
      case AddRoot(slot) => AddRootKeeps(s, slot);
    }
  }

  lemma FlushBatchNextKeeps(s: State, step: Step, s': State)
    requires Holds(s) && FlushBatchNext(s, step, s')
    ensures Holds(s')
  {
    match step {
      case BeginFlush(upTo, clean, mark) => BeginFlushKeeps(s, upTo, clean, mark);
      case FlushSkip(slot) => FlushSkipKeeps(s, slot);
      case FlushSlot(slot) => FlushSlotKeeps(s, slot);
      case EndFlush => EndFlushKeeps(s);
    }
  }

  lemma FlushSlotNextKeeps(s: State, step: Step, s': State)
    requires Holds(s) && FlushSlotNext(s, step, s')
    ensures Holds(s')
  {
    match step {
      case FlushPurgeKey(key) => FlushPurgeKeyKeeps(s, key);
      case FlushDead => FlushDeadKeeps(s);
      case FlushWrite => FlushWriteKeeps(s);
      case FlushIndexKey(key) => FlushIndexKeyKeeps(s, key);
      case FlushIndexed => FlushIndexedKeeps(s);
      case FlushReclaimed => FlushReclaimedKeeps(s);
      case FlushDrop => FlushDropKeeps(s);
    }
  }

  lemma ReclaimNextKeeps(s: State, step: Step, s': State)
    requires Holds(s) && ReclaimNext(s, step, s')
    ensures Holds(s')
  {
    match step {
      case ReclaimSkip(slot) => ReclaimMapped(s, slot);
      case ReclaimSlot(slot) => ReclaimSlotKeeps(s, slot);
      case KillRoot(slot) => KillRootKeeps(s, slot);
      case RemoveStorage(slot) => RemoveStorageKeeps(s, slot);
    }
  }

  lemma CleanNextKeeps(s: State, step: Step, s': State)
    requires Holds(s) && CleanNext(s, step, s')
    ensures Holds(s')
  {
    match step {
      case BeginClean => BeginCleanKeeps(s);
      case CleanKey(key, slots) => CleanKeyKeeps(s, key, slots);
      case CleanReclaims => CleanReclaimsKeeps(s);
      case CleanReclaimed => CleanReclaimedKeeps(s);
      case EndClean => EndCleanKeeps(s);
    }
  }

  lemma PurgeNextKeeps(s: State, step: Step, s': State)
    requires Holds(s) && PurgeNext(s, step, s')
    ensures Holds(s')
  {
    match step {
      case BeginPurge(slot) => BeginPurgeKeeps(s, slot);
      case PurgeKey(key) => PurgeKeyKeeps(s, key);
      case EndPurge => EndPurgeKeeps(s);
    }
  }

  lemma ShrinkSlotNextKeeps(s: State, step: Step, s': State)
    requires Holds(s) && ShrinkSlotNext(s, step, s')
    ensures Holds(s')
  {
    match step {
      case BeginShrink => BeginShrinkKeeps(s);
      case ShrinkSlot(slot, zero) => ShrinkSlotKeeps(s, slot, zero);
      case ShrinkIndexKey(slot, key) => ShrinkIndexKeyKeeps(s, slot, key);
      case ShrinkZeroKey(slot, key) => ShrinkZeroKeyKeeps(s, slot, key);
    }
  }

  lemma ShrinkSwapNextKeeps(s: State, step: Step, s': State)
    requires Holds(s) && ShrinkSwapNext(s, step, s')
    ensures Holds(s')
  {
    match step {
      case ShrinkSwap(slot) => ShrinkSwapKeeps(s, slot);
      case ShrinkEnd(slot) => ShrinkEndKeeps(s, slot);
      case EndShrink => EndShrinkKeeps(s);
    }
  }

  lemma LoadNextKeeps(s: State, step: Step, s': State)
    requires Holds(s) && LoadNext(s, step, s')
    ensures Holds(s')
  {
    match step {
      case BeginLoad(r, key, ancestors, fixed) => ReadersKeep(s, s'.readers);
      case ReadNothing(r) => ReadersKeep(s, s'.readers);
      case ReadEntry(r, slot, lock) => ReadersKeep(s, s'.readers);
      case Lookup(r) => ReadersKeep(s, s'.readers);
      case EndLoad(r) => ReadersKeep(s, s'.readers);
    }
  }

  lemma EveryStepKeeps(s: State, step: Step, s': State)
    requires Holds(s) && Next(s, step, s')
    ensures Holds(s')
  {
    if StoreNext(s, step, s') {
      StoreNextKeeps(s, step, s');
    } else if FlushBatchNext(s, step, s') {
      FlushBatchNextKeeps(s, step, s');
    } else if FlushSlotNext(s, step, s') {
      FlushSlotNextKeeps(s, step, s');
    } else if ReclaimNext(s, step, s') {
      ReclaimNextKeeps(s, step, s');
    } else if CleanNext(s, step, s') {
      CleanNextKeeps(s, step, s');
    } else if PurgeNext(s, step, s') {
      PurgeNextKeeps(s, step, s');
    } else if ShrinkSlotNext(s, step, s') {
      ShrinkSlotNextKeeps(s, step, s');
    } else if ShrinkSwapNext(s, step, s') {
      ShrinkSwapNextKeeps(s, step, s');
    } else {
      LoadNextKeeps(s, step, s');
    }
  }
}
