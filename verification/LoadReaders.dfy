/**
 Readers of the load protocol: what a reader in the middle of a load may rely on while the other
 steps run, and that its own steps never lead to a panic.
 */
module LoadReaders {
  import opened Types
  import opened LoadProtocol
  import opened LoadInvariant

  // ---------------------------------------------------------------- what a reader relies on

  /** The storage is in neither map. */
  predicate Gone(nextId: StorageId, storageMap: StorageMap, shrinkMap: StorageMap, slot: Slot, id: StorageId) {
    id < nextId && !InMap(storageMap, slot, id) && !InMap(shrinkMap, slot, id)
  }

  predicate HoldsAccount(storages: Storages, nextId: StorageId, key: Pubkey, slot: Slot, id: StorageId) {
    id < nextId && id in storages && key in storages[id].accounts && storages[id].slot == slot
  }

  /** A storage location the reader failed to find is gone; one it is looking up once held the account. */
  ghost predicate PhaseOk(nextId: StorageId, storages: Storages, storageMap: StorageMap, shrinkMap: StorageMap,
                          r: Reader) {
    match r.phase
    case ReadIndex(prev) =>
      prev.Some? && prev.value.1.AppendVec? ==> Gone(nextId, storageMap, shrinkMap, prev.value.0, prev.value.1.id)
    case LookupMap(slot, id) => HoldsAccount(storages, nextId, r.key, slot, id)
    case LookupShrinkMap(slot, id) => HoldsAccount(storages, nextId, r.key, slot, id)
    case LookupMapAgain(slot, id) => HoldsAccount(storages, nextId, r.key, slot, id) && !InMap(shrinkMap, slot, id)
    case Panicked => false
    case _ => true
  }

  /** The entry a locked reader has read is still there. */
  ghost predicate LockOk(index: Index, r: Reader) {
    r.locked ==>
      match r.phase
      case LookupCache(slot) => (r.key, slot) in index && index[(r.key, slot)] == Cached
      case LookupMap(slot, id) => (r.key, slot) in index && index[(r.key, slot)] == AppendVec(id)
      case LookupShrinkMap(slot, id) => (r.key, slot) in index && index[(r.key, slot)] == AppendVec(id)
      case LookupMapAgain(slot, id) => (r.key, slot) in index && index[(r.key, slot)] == AppendVec(id)
      case _ => false
  }

  /** No rooted version of `key` is newer than `slot`; and the version at `slot` is indexed, or
      every rooted slot still in the cache is newer. */
  ghost predicate NewestRooted(index: Index, roots: set<Slot>, cache: Cache, key: Pubkey, slot: Slot) {
    && (forall p | p in index && p.0 == key && p.1 in roots :: p.1 <= slot)
    && ((key, slot) in index || forall c | c in cache && c in roots :: slot < c)
  }

  /** The reader is about to look at an unrooted ancestor, which the cache keeps for it. */
  predicate AtAncestor(ever: set<Slot>, cache: Cache, key: Pubkey, ancestors: set<Slot>, slot: Slot) {
    slot in ancestors && slot !in ever && slot in cache && key in cache[slot]
  }

  /** The reader is about to look at its newest rooted version, which is cached or has been flushed. */
  ghost predicate AtRoot(index: Index, roots: set<Slot>, ever: set<Slot>, unflushed: set<Slot>, cache: Cache,
                         b: Background,
                         key: Pubkey, slot: Slot) {
    && slot in ever && NewestRooted(index, roots, cache, key, slot)
    && (slot in cache ==> key in cache[slot] && (key, slot) in index)
    && (slot !in cache ==> Done(ever, unflushed, b, slot))
  }

  /** What a load under a fixed root relies on: at most one miss, after which the version it missed is
      out of the cache for good and no other rooted version is left for it there. */
  ghost predicate FixedOk(index: Index, roots: set<Slot>, ever: set<Slot>, unflushed: set<Slot>, cache: Cache,
                          b: Background, r: Reader) {
    r.fixed ==>
      && r.misses <= 1
      && (r.Active() ==>
            && (b.Purging? ==> b.purged !in r.ancestors)
            && (r.misses == 1 ==>
                  Done(ever, unflushed, b, r.missed) && NewestRooted(index, roots, cache, r.key, r.missed))
            && (r.phase.LookupCache? ==>
                  || AtAncestor(ever, cache, r.key, r.ancestors, r.phase.slot)
                  || (r.misses == 0 && AtRoot(index, roots, ever, unflushed, cache, b, r.key, r.phase.slot))))
  }

  ghost predicate PhasesOk(nextId: StorageId, storages: Storages, storageMap: StorageMap, shrinkMap: StorageMap,
                           readers: map<nat, Reader>) {
    forall r | r in readers :: PhaseOk(nextId, storages, storageMap, shrinkMap, readers[r])
  }

  ghost predicate LocksOk(index: Index, readers: map<nat, Reader>) {
    forall r | r in readers :: LockOk(index, readers[r])
  }

  ghost predicate FixedReadersOk(index: Index, roots: set<Slot>, ever: set<Slot>, unflushed: set<Slot>, cache: Cache,
                                 b: Background,
                                 readers: map<nat, Reader>) {
    forall r | r in readers :: FixedOk(index, roots, ever, unflushed, cache, b, readers[r])
  }

  ghost predicate ReadersOk(s: State) {
    && PhasesOk(s.nextId, s.storages, s.storageMap, s.shrinkMap, s.readers)
    && LocksOk(s.index, s.readers)
    && FixedReadersOk(s.index, s.roots, s.everRooted, s.unflushed, s.cache, s.background, s.readers)
  }

  // ---------------------------------------------------------------- storages only move forward

  /** Storages are never changed; a map entry is new, stays, or moves from the shrink map to the storage map. */
  ghost predicate Forward(s: State, s': State) {
    && s.nextId <= s'.nextId
    && (forall id | id in s.storages :: id in s'.storages && s'.storages[id] == s.storages[id])
    && (forall slot | slot in s'.storageMap ::
          s'.storageMap[slot] >= s.nextId || InMap(s.storageMap, slot, s'.storageMap[slot]) ||
            InMap(s.shrinkMap, slot, s'.storageMap[slot]))
    && (forall slot | slot in s'.shrinkMap ::
         s'.shrinkMap[slot] >= s.nextId || InMap(s.shrinkMap, slot, s'.shrinkMap[slot]))
  }

  lemma ForwardKeeps(s: State, s': State)
    requires Forward(s, s')
    requires PhasesOk(s.nextId, s.storages, s.storageMap, s.shrinkMap, s.readers)
    ensures PhasesOk(s'.nextId, s'.storages, s'.storageMap, s'.shrinkMap, s.readers)
  {}

  // ---------------------------------------------------------------- a locked entry stays

  /** Only entries whose key no reader has locked change. */
  ghost predicate RespectsLocks(index: Index, index': Index, readers: map<nat, Reader>) {
    forall p | p in index :: (p in index' && index'[p] == index[p]) || Unlocked(readers, p.0)
  }

  lemma LocksKeep(index: Index, index': Index, readers: map<nat, Reader>)
    requires RespectsLocks(index, index', readers)
    requires LocksOk(index, readers)
    ensures LocksOk(index', readers)
  {}

  // ---------------------------------------------------------------- a fixed root stays fixed

  /** A slot whose flush is over stays so. */
  ghost predicate StaysDone(ever: set<Slot>, unflushed: set<Slot>, b: Background, unflushed': set<Slot>,
                            b': Background) {
    && (forall x | x in ever && Done(ever, unflushed, b, x) :: Done(ever, unflushed', b', x))
    && (b'.Purging? ==> b.Purging? && b.purged == b'.purged)
  }

  lemma BackgroundMoves(index: Index, roots: set<Slot>, ever: set<Slot>, unflushed: set<Slot>, cache: Cache,
                        b: Background,
                        roots': set<Slot>, unflushed': set<Slot>, b': Background, r: Reader)
    requires FixedOk(index, roots, ever, unflushed, cache, b, r)
    requires roots' <= roots && StaysDone(ever, unflushed, b, unflushed', b')
    ensures FixedOk(index, roots', ever, unflushed', cache, b', r)
  {}

  /** Entries leave the index only when a newer rooted one stays, when every rooted slot in the cache is
      newer, or when they are not rooted at all. */
  ghost predicate Superseded(index: Index, roots: set<Slot>, ever: set<Slot>, cache: Cache, p: (Pubkey, Slot)) {
    || (exists w | (p.0, w) in index :: w in roots && p.1 < w)
    || (p.1 !in cache && forall c | c in cache && c in roots :: p.1 < c)
    || p.1 !in ever
  }

  lemma EntriesLeave(index: Index, index': Index, roots: set<Slot>, ever: set<Slot>, unflushed: set<Slot>, cache: Cache,
                     b: Background, r: Reader)
    requires FixedOk(index, roots, ever, unflushed, cache, b, r)
    requires forall p | p in index' :: p in index
    requires forall p | p in index && p !in index' :: Superseded(index, roots, ever, cache, p)
    ensures FixedOk(index', roots, ever, unflushed, cache, b, r)
  {
    if r.fixed && r.Active() && r.misses == 1 {
      StaysNewest(index, index', roots, ever, cache, r.key, r.missed);
    }
    if r.fixed && r.phase.LookupCache? && r.misses == 0 &&
      AtRoot(index, roots, ever, unflushed, cache, b, r.key, r.phase.slot) {
      StaysNewest(index, index', roots, ever, cache, r.key, r.phase.slot);
    }
  }

  lemma StaysNewest(index: Index, index': Index, roots: set<Slot>, ever: set<Slot>, cache: Cache, key: Pubkey,
                    slot: Slot)
    requires NewestRooted(index, roots, cache, key, slot) && slot in ever
    requires forall p | p in index' :: p in index
    requires forall p | p in index && p !in index' :: Superseded(index, roots, ever, cache, p)
    ensures NewestRooted(index', roots, cache, key, slot)
    ensures slot in cache && (key, slot) in index ==> (key, slot) in index'
  {}

  lemma UnrootedEntry(index: Index, index': Index, roots: set<Slot>, ever: set<Slot>, unflushed: set<Slot>,
                      cache: Cache, b: Background,
                      entry: (Pubkey, Slot), r: Reader)
    requires FixedOk(index, roots, ever, unflushed, cache, b, r)
    requires entry.1 !in roots && index' == index[entry := Cached]
    ensures FixedOk(index', roots, ever, unflushed, cache, b, r)
  {}

  lemma UnrootedStore(index: Index, roots: set<Slot>, ever: set<Slot>, unflushed: set<Slot>, cache: Cache,
                      b: Background,
                      slot: Slot, key: Pubkey, a: Account, r: Reader)
    requires FixedOk(index, roots, ever, unflushed, cache, b, r)
    requires slot !in ever && roots <= ever
    ensures FixedOk(index, roots, ever, unflushed, cache[slot := CacheOf(cache, slot)[key := a]], b, r)
  {}

  /** A slot leaves the cache when its flush is over, or when it is purged. */
  lemma SlotLeavesCache(index: Index, roots: set<Slot>, ever: set<Slot>, unflushed: set<Slot>, cache: Cache,
                        b: Background,
                        slot: Slot, b': Background, r: Reader)
    requires FixedOk(index, roots, ever, unflushed, cache, b, r)
    requires StaysDone(ever, unflushed, b, unflushed, b') && !b'.Purging?
    requires if slot in ever then Done(ever, unflushed, b', slot) else b.Purging? && b.purged == slot
    ensures FixedOk(index, roots, ever, unflushed, cache - {slot}, b', r)
  {}
}
