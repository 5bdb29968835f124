/**
 Every step of the load protocol keeps what the readers rely on.
 */
module LoadReadersProof {
  import opened Types
  import opened LoadProtocol
  import opened LoadInvariant
  import opened LoadReaders

  // ---------------------------------------------------------------- steps of the background actor

  /** A step that changes neither the index nor the cache. */
  lemma ByBackground(s: State, s': State)
    requires ReadersOk(s) && Forward(s, s') && s'.readers == s.readers
    requires s'.index == s.index && s'.cache == s.cache && s'.everRooted == s.everRooted && s'.roots <= s.roots
    requires StaysDone(s.everRooted, s.unflushed, s.background, s'.unflushed, s'.background)
    ensures ReadersOk(s')
  {
    ForwardKeeps(s, s');
    forall r | r in s.readers
      ensures FixedOk(s'.index, s'.roots, s'.everRooted, s'.unflushed, s'.cache, s'.background, s.readers[r])
    {
      BackgroundMoves(s.index, s.roots, s.everRooted, s.unflushed, s.cache, s.background, s'.roots, s'.unflushed,
        s'.background, s.readers[r]);
    }
  }

  /** A step that takes entries out of the index or redirects them. */
  lemma ByIndex(s: State, s': State)
    requires ReadersOk(s) && Forward(s, s') && s'.readers == s.readers
    requires s'.cache == s.cache && s'.everRooted == s.everRooted && s'.roots == s.roots
    requires RespectsLocks(s.index, s'.index, s.readers)
    requires forall p | p in s'.index :: p in s.index
    requires forall p | p in s.index && p !in s'.index :: Superseded(s.index, s.roots, s.everRooted, s.cache, p)
    requires StaysDone(s.everRooted, s.unflushed, s.background, s'.unflushed, s'.background)
    ensures ReadersOk(s')
  {
    ForwardKeeps(s, s');
    LocksKeep(s.index, s'.index, s.readers);
    forall r | r in s.readers
      ensures FixedOk(s'.index, s'.roots, s'.everRooted, s'.unflushed, s'.cache, s'.background, s.readers[r])
    {
      EntriesLeave(s.index, s'.index, s.roots, s.everRooted, s.unflushed, s.cache, s.background, s.readers[r]);
      BackgroundMoves(s'.index, s.roots, s.everRooted, s.unflushed, s.cache, s.background, s'.roots, s'.unflushed,
        s'.background, s.readers[r]);
    }
  }

  // A few steps each need one fact of the invariant.

  lemma FlushPurgeKeyReaders(s: State, key: Pubkey)
    requires ReadersOk(s) && CanFlushPurgeKey(s, key)
    requires FlushOk(s.background, s.index, s.roots, s.cache, s.storageMap, s.storages)
    ensures ReadersOk(DoFlushPurgeKey(s, key))
  {
    var b := s.background;
    assert (key, b.written[key]) in s.index && b.phase.slot in Current(b);
    ByIndex(s, DoFlushPurgeKey(s, key));
  }

  lemma FlushIndexKeyReaders(s: State, key: Pubkey)
    requires ReadersOk(s) && CanFlushIndexKey(s, key)
    requires FlushOk(s.background, s.index, s.roots, s.cache, s.storageMap, s.storages)
    ensures ReadersOk(DoFlushIndexKey(s, key))
  {
    assert (key, s.background.phase.slot) in s.index;
    ByIndex(s, DoFlushIndexKey(s, key));
  }

  /** Outside a flush, a slot with a storage is older than every rooted slot in the cache. */
  lemma StoredIsOlder(s: State, slot: Slot)
    requires !s.background.Flushing? && slot in s.storageMap
    requires CacheOk(s.cache, s.history, s.storageMap, s.background)
    requires RootsOk(s.roots, s.everRooted, s.unflushed, s.background)
    requires StoredSlotsOk(s.storageMap, s.everRooted, s.unflushed, s.background)
    requires CachePending(s.cache, s.everRooted, s.unflushed, s.background)
    requires OrderOk(s.everRooted, s.unflushed, s.background)
    ensures slot !in s.cache && forall c | c in s.cache && c in s.roots :: slot < c
  {}

  lemma CleanKeyReaders(s: State, key: Pubkey, slots: set<Slot>)
    requires ReadersOk(s) && CanCleanKey(s, key, slots)
    requires forall x | x in slots :: x !in s.cache && forall c | c in s.cache && c in s.roots :: x < c
    ensures ReadersOk(DoCleanKey(s, key, slots))
  {
    ByIndex(s, DoCleanKey(s, key, slots));
  }

  lemma ShrinkZeroKeyReaders(s: State, slot: Slot, key: Pubkey)
    requires ReadersOk(s) && CanShrinkZeroKey(s, slot, key)
    requires slot !in s.cache && forall c | c in s.cache && c in s.roots :: slot < c
    ensures ReadersOk(DoShrinkZeroKey(s, slot, key))
  {
    ByIndex(s, DoShrinkZeroKey(s, slot, key));
  }

  lemma ShrinkIndexKeyReaders(s: State, slot: Slot, key: Pubkey)
    requires ReadersOk(s) && CanShrinkIndexKey(s, slot, key)
    requires (key, slot) in s.index
    ensures ReadersOk(DoShrinkIndexKey(s, slot, key))
  {
    ByIndex(s, DoShrinkIndexKey(s, slot, key));
  }

  lemma PurgeKeyReaders(s: State, key: Pubkey)
    requires ReadersOk(s) && CanPurgeKey(s, key)
    requires PurgeOk(s.background, s.everRooted, s.index)
    ensures ReadersOk(DoPurgeKey(s, key))
  {
    ByIndex(s, DoPurgeKey(s, key));
  }

  lemma ShrinkSwapReaders(s: State, slot: Slot)
    requires ReadersOk(s) && CanShrinkSwap(s, slot)
    requires InMap(s.shrinkMap, slot, s.background.slots[slot].id)
    ensures ReadersOk(DoShrinkSwap(s, slot))
  {
    ByBackground(s, DoShrinkSwap(s, slot));
  }

  lemma BeginPurgeReaders(s: State, slot: Slot)
    requires ReadersOk(s) && CanBeginPurge(s, slot)
    ensures ReadersOk(DoBeginPurge(s, slot))
  {}

  lemma FlushDropReaders(s: State)
    requires ReadersOk(s) && CanFlushDrop(s)
    requires RootsOk(s.roots, s.everRooted, s.unflushed, s.background)
    ensures ReadersOk(DoFlushDrop(s))
  {
    var s' := DoFlushDrop(s);
    var slot := s.background.phase.slot;
    assert slot in Current(s.background);
    forall r | r in s.readers
      ensures FixedOk(s'.index, s'.roots, s'.everRooted, s'.unflushed, s'.cache, s'.background, s.readers[r])
    {
      SlotLeavesCache(s.index, s.roots, s.everRooted, s.unflushed, s.cache, s.background, slot, s'.background,
        s.readers[r]);
    }
  }

  lemma EndPurgeReaders(s: State)
    requires ReadersOk(s) && CanEndPurge(s)
    requires PurgeOk(s.background, s.everRooted, s.index)
    ensures ReadersOk(DoEndPurge(s))
  {
    var s' := DoEndPurge(s);
    forall r | r in s.readers
      ensures FixedOk(s'.index, s'.roots, s'.everRooted, s'.unflushed, s'.cache, s'.background, s.readers[r])
    {
      SlotLeavesCache(s.index, s.roots, s.everRooted, s.unflushed, s.cache, s.background, s.background.purged,
        s'.background, s.readers[r]);
    }
  }

  // ---------------------------------------------------------------- foreground steps

  lemma StoreCacheReaders(s: State, t: nat, slot: Slot, key: Pubkey, a: Account)
    requires ReadersOk(s) && CanStoreCache(s, t, slot, key, a)
    requires s.roots <= s.everRooted
    ensures ReadersOk(DoStoreCache(s, t, slot, key, a))
  {
    var s' := DoStoreCache(s, t, slot, key, a);
    forall r | r in s.readers
      ensures FixedOk(s'.index, s'.roots, s'.everRooted, s'.unflushed, s'.cache, s'.background, s.readers[r])
    {
      UnrootedStore(s.index, s.roots, s.everRooted, s.unflushed, s.cache, s.background, slot, key, a, s.readers[r]);
    }
  }

  lemma StoreIndexReaders(s: State, t: nat)
    requires ReadersOk(s) && CanStoreIndex(s, t)
    requires s.storing[t].1 !in s.roots
    ensures ReadersOk(DoStoreIndex(s, t))
  {
    var s' := DoStoreIndex(s, t);
    LocksKeep(s.index, s'.index, s.readers);
    forall r | r in s.readers
      ensures FixedOk(s'.index, s'.roots, s'.everRooted, s'.unflushed, s'.cache, s'.background, s.readers[r])
    {
      UnrootedEntry(s.index, s'.index, s.roots, s.everRooted, s.unflushed, s.cache, s.background, s.storing[t],
        s.readers[r]);
    }
  }

  lemma AddRootReaders(s: State, slot: Slot)
    requires ReadersOk(s) && CanAddRoot(s, slot)
    ensures ReadersOk(DoAddRoot(s, slot))
  {}

  // ---------------------------------------------------------------- a reader's own steps

  ghost predicate ReaderOk(s: State, r: Reader) {
    && PhaseOk(s.nextId, s.storages, s.storageMap, s.shrinkMap, r)
    && LockOk(s.index, r)
    && FixedOk(s.index, s.roots, s.everRooted, s.unflushed, s.cache, s.background, r)
  }

  lemma OneReader(s: State, r: nat, reader: Reader)
    requires ReadersOk(s) && ReaderOk(s, reader)
    ensures ReadersOk(s.(readers := s.readers[r := reader]))
  {}

  lemma BeginLoadReaders(s: State, r: nat, key: Pubkey, ancestors: set<Slot>, fixed: bool)
    requires ReadersOk(s) && CanBeginLoad(s, r, key, ancestors, fixed)
    ensures ReadersOk(DoBeginLoad(s, r, key, ancestors, fixed))
  {
    OneReader(s, r, Reader(key, ancestors, fixed, false, 0, 0, ReadIndex(None)));
  }

  lemma ReadNothingReaders(s: State, r: nat)
    requires ReadersOk(s) && CanReadNothing(s, r)
    ensures ReadersOk(DoReadNothing(s, r))
  {
    OneReader(s, r, s.readers[r].(phase := Missing));
  }

  lemma EndLoadReaders(s: State, r: nat)
    requires ReadersOk(s) && CanEndLoad(s, r)
    ensures ReadersOk(DoEndLoad(s, r))
  {}

  /** The index never returns a storage again that the reader found gone. */
  lemma ReadEntryPhase(s: State, r: nat, slot: Slot, lock: bool)
    requires CanReadEntry(s, r, slot, lock)
    requires PhaseOk(s.nextId, s.storages, s.storageMap, s.shrinkMap, s.readers[r])
    requires StoredLive(s.index, s.storages, s.storageMap, s.shrinkMap)
    requires IdsOk(s.storages, s.nextId, s.counts) && MapsOk(s.storages, s.storageMap, s.shrinkMap)
    ensures var reader' := DoReadEntry(s, r, slot, lock).readers[r];
      PhaseOk(s.nextId, s.storages, s.storageMap, s.shrinkMap, reader') && LockOk(s.index, reader')
  {
    assert (s.readers[r].key, slot) in s.index;
  }

  /** After a miss under a fixed root, the newest visible version is in a storage or in an unrooted slot. */
  lemma SecondReadIsStored(s: State, reader: Reader, slot: Slot)
    requires reader.fixed && reader.misses == 1 && IsLatest(s.index, s.roots, reader.key, reader.ancestors, slot) &&
      slot in s.everRooted
    requires Done(s.everRooted, s.unflushed, s.background, reader.missed)
    requires NewestRooted(s.index, s.roots, s.cache, reader.key, reader.missed)
    requires IndexRooted(s.index, s.everRooted, s.roots)
    requires CachedLive(s.index, s.cache) && CachePending(s.cache, s.everRooted, s.unflushed, s.background)
    ensures s.index[(reader.key, slot)].AppendVec?
  {
    assert (reader.key, slot) in s.index;
    assert (reader.key, reader.missed) in s.index ==> reader.missed <= slot;
  }

  lemma ReadAtRoot(s: State, reader: Reader, slot: Slot)
    requires IsLatest(s.index, s.roots, reader.key, reader.ancestors, slot) && slot in s.everRooted
    requires s.index[(reader.key, slot)].Cached?
    requires CachedLive(s.index, s.cache)
    ensures AtRoot(s.index, s.roots, s.everRooted, s.unflushed, s.cache, s.background, reader.key, slot)
  {
    assert (reader.key, slot) in s.index;
  }

  lemma ReadAtAncestor(s: State, reader: Reader, slot: Slot)
    requires IsLatest(s.index, s.roots, reader.key, reader.ancestors, slot) && slot !in s.everRooted
    requires s.index[(reader.key, slot)].Cached?
    requires CachedLive(s.index, s.cache) && s.roots <= s.everRooted
    ensures AtAncestor(s.everRooted, s.cache, reader.key, reader.ancestors, slot)
  {
    assert (reader.key, slot) in s.index;
  }

  lemma FixedAfterRead(s: State, reader: Reader, slot: Slot, phase: ReaderPhase, lock: bool)
    requires reader.Active() && IsLatest(s.index, s.roots, reader.key, reader.ancestors, slot)
    requires phase.LookupCache? ==> phase.slot == slot && s.index[(reader.key, slot)].Cached?
    requires FixedOk(s.index, s.roots, s.everRooted, s.unflushed, s.cache, s.background, reader)
    requires IndexRooted(s.index, s.everRooted, s.roots) && s.roots <= s.everRooted
    requires CachedLive(s.index, s.cache) && CachePending(s.cache, s.everRooted, s.unflushed, s.background)
    ensures FixedOk(s.index, s.roots, s.everRooted, s.unflushed, s.cache, s.background,
      reader.(phase := phase, locked := lock))
  {
    if reader.fixed && phase.LookupCache? {
      if slot !in s.everRooted {
        ReadAtAncestor(s, reader, slot);
      } else {
        ReadAtRoot(s, reader, slot);
        if reader.misses == 1 { SecondReadIsStored(s, reader, slot); }
      }
    }
  }

  lemma ReadEntryFixed(s: State, r: nat, slot: Slot, lock: bool)
    requires CanReadEntry(s, r, slot, lock)
    requires FixedOk(s.index, s.roots, s.everRooted, s.unflushed, s.cache, s.background, s.readers[r])
    requires IndexRooted(s.index, s.everRooted, s.roots) && s.roots <= s.everRooted
    requires CachedLive(s.index, s.cache) && CachePending(s.cache, s.everRooted, s.unflushed, s.background)
    ensures FixedOk(s.index, s.roots, s.everRooted, s.unflushed, s.cache, s.background,
      DoReadEntry(s, r, slot, lock).readers[r])
  {
    var reader' := DoReadEntry(s, r, slot, lock).readers[r];
    FixedAfterRead(s, s.readers[r], slot, reader'.phase, reader'.locked);
  }

  lemma ReadEntryReaders(s: State, r: nat, slot: Slot, lock: bool)
    requires ReadersOk(s) && CanReadEntry(s, r, slot, lock)
    requires StoredLive(s.index, s.storages, s.storageMap, s.shrinkMap)
    requires IdsOk(s.storages, s.nextId, s.counts) && MapsOk(s.storages, s.storageMap, s.shrinkMap)
    requires IndexRooted(s.index, s.everRooted, s.roots)
    requires CachedLive(s.index, s.cache) && CachePending(s.cache, s.everRooted, s.unflushed, s.background)
    requires RootsOk(s.roots, s.everRooted, s.unflushed, s.background)
    ensures ReadersOk(DoReadEntry(s, r, slot, lock))
  {
    ReadEntryPhase(s, r, slot, lock);
    ReadEntryFixed(s, r, slot, lock);
    OneReader(s, r, DoReadEntry(s, r, slot, lock).readers[r]);
  }

  /** A locked reader finds its account, and three failed lookups mean that the storage is gone. */
  lemma LookupReader(s: State, reader: Reader)
    requires reader.Active() && ReaderOk(s, reader)
    requires CachedLive(s.index, s.cache) && StoredLive(s.index, s.storages, s.storageMap, s.shrinkMap)
    ensures ReaderOk(s, AfterLookup(s, reader))
  {}

  lemma LookupReaders(s: State, r: nat)
    requires ReadersOk(s) && CanLookup(s, r)
    requires CachedLive(s.index, s.cache) && StoredLive(s.index, s.storages, s.storageMap, s.shrinkMap)
    ensures ReadersOk(DoLookup(s, r))
  {
    LookupReader(s, s.readers[r]);
    OneReader(s, r, AfterLookup(s, s.readers[r]));
  }
}
