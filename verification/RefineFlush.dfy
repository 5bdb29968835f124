/**
 Flush as steps of the load protocol: slot by slot from the newest, and within a slot key by key.
 */
module RefineFlush {
  import opened Types
  import opened LoadProtocol
  import opened LoadInvariant
  import opened LoadHistory
  import opened LoadPaths
  import opened Refinement
  import opened RefineClean
  import opened RefineShrink
  import D = Database
  import Sets

  ghost predicate IsFlushing(s: State, phase: FlushPhase) {
    s.background.Flushing? && s.background.phase == phase && s.readers == map[]
  }

  function InPhase(b: Background, phase: FlushPhase): Background requires b.Flushing? {
    b.(phase := phase)
  }

  // ---------------------------------------------------------------- versions that are not written

  lemma {:induction false} SkipAll(start: State, s: State, slot: Slot, skip: set<Pubkey>, write: set<Pubkey>)
    requires Reaches(start, s) && Core(s) && IsFlushing(s, PurgeKeys(slot, skip, write))
    ensures var s' := s.(index := DropAt(s.index, slot, skip),
      background := InPhase(s.background, PurgeKeys(slot, {}, write)));
      Reaches(start, s') && Core(s')
    decreases skip
  {
    hide Core, Reaches, DropAt, DropKey;
    if skip == {} {
      DropAtNone(s.index, slot);
    } else {
      var key :| key in skip;
      var s1 := DoFlushPurgeKey(s, key);
      assert FlushSlotNext(s, FlushPurgeKey(key), s1);
      TakeFlushSlot(start, s, FlushPurgeKey(key), s1);
      DropAtNext(s.index, slot, skip, key);
      SkipAll(start, s1, slot, skip - {key}, write);
    }
  }

  // ---------------------------------------------------------------- versions that are written

  function OldPairs(index: Index, slot: Slot, keys: set<Pubkey>, reclaim: bool): Gone {
    set p | p in index && reclaim && index[p].AppendVec? && p.0 in keys && p.1 < slot
  }

  function WrittenIndex(index: Index, slot: Slot, id: StorageId, keys: set<Pubkey>, reclaim: bool): Index {
    Moved(DropPairs(index, OldPairs(index, slot, keys, reclaim)), slot, id, keys)
  }

  function WrittenOne(index: Index, slot: Slot, id: StorageId, key: Pubkey, reclaim: bool): Index {
    DropKey(index, key, if reclaim then OldStored(index, key, slot) else {})[(key, slot) := AppendVec(id)]
  }

  lemma OldNext(index: Index, slot: Slot, id: StorageId, keys: set<Pubkey>, key: Pubkey, reclaim: bool)
    requires key in keys
    ensures OldPairs(WrittenOne(index, slot, id, key, reclaim), slot, keys - {key}, reclaim)
         == OldPairs(index, slot, keys - {key}, reclaim)
    ensures Pairs(key, if reclaim then OldStored(index, key, slot) else {}) == OldPairs(index, slot, {key}, reclaim)
  {
    forall p: (Pubkey, Slot) | p in OldPairs(index, slot, {key}, reclaim) ensures p.1 in OldStored(index, key, slot) {
      assert p == (key, p.1);
    }
  }

  lemma OldUnion(index: Index, slot: Slot, keys: set<Pubkey>, key: Pubkey, reclaim: bool)
    requires key in keys
    ensures OldPairs(index, slot, {key}, reclaim) + OldPairs(index, slot, keys - {key}, reclaim)
         == OldPairs(index, slot, keys, reclaim)
  {}

  lemma WrittenNext(index: Index, slot: Slot, id: StorageId, keys: set<Pubkey>, key: Pubkey, reclaim: bool)
    requires key in keys
    ensures WrittenIndex(WrittenOne(index, slot, id, key, reclaim), slot, id, keys - {key}, reclaim)
         == WrittenIndex(index, slot, id, keys, reclaim)
  {
    OldNext(index, slot, id, keys, key, reclaim);
    OldUnion(index, slot, keys, key, reclaim);
    var one, rest := OldPairs(index, slot, {key}, reclaim), OldPairs(index, slot, keys - {key}, reclaim);
    assert forall p: (Pubkey, Slot) | p in rest :: p != (key, slot);
    DropOld(index, slot, key, reclaim);
    MovedNext(DropPairs(index, one + rest), slot, id, keys, key);
    hide OldPairs, Moved, OldStored, DropKey;
    assert DropPairs(DropPairs(index, one)[(key, slot) := AppendVec(id)], rest)
        == DropPairs(index, one + rest)[(key, slot) := AppendVec(id)];
  }

  lemma DropOld(index: Index, slot: Slot, key: Pubkey, reclaim: bool)
    ensures DropKey(index, key, if reclaim then OldStored(index, key, slot) else {})
         == DropPairs(index, OldPairs(index, slot, {key}, reclaim))
  {
    forall p: (Pubkey, Slot) | p in index
      ensures p in OldPairs(index, slot, {key}, reclaim) <==>
        reclaim && p.0 == key && p.1 in OldStored(index, key, slot)
    {
      assert p == (p.0, p.1);
    }
  }

  lemma WrittenNone(index: Index, slot: Slot, id: StorageId, reclaim: bool)
    ensures WrittenIndex(index, slot, id, {}, reclaim) == index && OldPairs(index, slot, {}, reclaim) == {}
  {
    MovedNone(index, slot, id);
  }

  lemma {:induction false} IndexAll(start: State, s: State, slot: Slot, id: StorageId, left: set<Pubkey>,
                                    write: set<Pubkey>,
                                    reclaim: bool)
    requires Reaches(start, s) && Core(s) && IsFlushing(s, IndexKeys(slot, id, left, write))
    requires reclaim == (s.background.mark && Cleans(s.background, slot))
    ensures var s' := s.(index := WrittenIndex(s.index, slot, id, left, reclaim),
                         reclaims := s.reclaims + OldPairs(s.index, slot, left, reclaim),
                         background := InPhase(s.background, IndexKeys(slot, id, {}, write)));
      Reaches(start, s') && Core(s')
    decreases left
  {
    hide Core, Reaches, WrittenIndex, OldPairs, DropKey, OldStored, Pairs;
    if left == {} {
      WrittenNone(s.index, slot, id, reclaim);
      assert s.reclaims + {} == s.reclaims;
    } else {
      var key :| key in left;
      var s1 := DoFlushIndexKey(s, key);
      assert FlushSlotNext(s, FlushIndexKey(key), s1);
      TakeFlushSlot(start, s, FlushIndexKey(key), s1);
      assert s1.index == WrittenOne(s.index, slot, id, key, reclaim);
      OldNext(s.index, slot, id, left, key, reclaim);
      OldUnion(s.index, slot, left, key, reclaim);
      WrittenNext(s.index, slot, id, left, key, reclaim);
      IndexAll(start, s1, slot, id, left - {key}, write, reclaim);
      assert s1.reclaims + OldPairs(s1.index, slot, left - {key}, reclaim) ==
        s.reclaims + OldPairs(s.index, slot, left, reclaim);
    }
  }

  // ---------------------------------------------------------------- one slot

  /** The storage of a flushed slot, and the index and storages once its reclaims are done. */
  function NewStorages(s: State, slot: Slot, write: set<Pubkey>): Storages {
    s.storages[s.nextId := Storage(slot, Restrict(CacheOf(s.cache, slot), write))]
  }

  ghost function Kills(s: State, slot: Slot, write: set<Pubkey>, reclaim: bool): set<Slot> {
    DeadSlots(WrittenIndex(s.index, slot, s.nextId, write, reclaim), s.storageMap[slot := s.nextId],
              OldPairs(s.index, slot, write, reclaim))
  }

  /** The accounts reach a storage and then the index; what they outdate is reclaimed. */
  lemma WriteSlot(start: State, s: State, slot: Slot, write: set<Pubkey>, reclaim: bool) returns (s': State)
    requires Reaches(start, s) && Core(s) && IsFlushing(s, PurgeKeys(slot, {}, write)) && Calm(s) && write != {}
    requires reclaim == (s.background.mark && Cleans(s.background, slot))
    ensures Reaches(start, s') && Core(s')
    ensures var dead := Kills(s, slot, write, reclaim);
      s' == s.(index := WrittenIndex(s.index, slot, s.nextId, write, reclaim), storages := NewStorages(s, slot, write),
               counts := s'.counts, storageMap := s.storageMap[slot := s.nextId] - dead, roots := s.roots - dead,
               nextId := s.nextId + 1, background := InPhase(s.background, DropCache(slot, write)))
  {
    hide Core, Reaches, WrittenIndex, OldPairs, DeadSlots, Restrict;
    var id, gone := s.nextId, OldPairs(s.index, slot, write, reclaim);
    var s1 := DoFlushWrite(s);
    assert FlushSlotNext(s, FlushWrite, s1);
    TakeFlushSlot(start, s, FlushWrite, s1);
    IndexAll(start, s1, slot, id, write, write, reclaim);
    var s2 := s1.(index := WrittenIndex(s.index, slot, id, write, reclaim), reclaims := {} + gone,
                  background := InPhase(s.background, IndexKeys(slot, id, {}, write)));
    s' := ReclaimSlots(start, s2, slot, id, write);
    assert {} + gone == gone;
  }

  lemma ReclaimSlots(start: State, s: State, slot: Slot, id: StorageId, write: set<Pubkey>) returns (s': State)
    requires Reaches(start, s) && Core(s) && IsFlushing(s, IndexKeys(slot, id, {}, write)) && s.dead == {}
    ensures Reaches(start, s') && Core(s')
    ensures var dead := DeadSlots(s.index, s.storageMap, s.reclaims);
      s' == s.(counts := s'.counts, reclaims := {}, roots := s.roots - dead, storageMap := s.storageMap - dead,
               background := InPhase(s.background, DropCache(slot, write)))
  {
    hide Core, Reaches, DeadSlots;
    var s1 := DoFlushIndexed(s);
    assert FlushSlotNext(s, FlushIndexed, s1);
    TakeFlushSlot(start, s, FlushIndexed, s1);
    var s2 := ReclaimAll(start, s1);
    s' := DoFlushReclaimed(s2);
    assert FlushSlotNext(s2, FlushReclaimed, s');
    TakeFlushSlot(start, s2, FlushReclaimed, s');
  }

  /** The slot leaves the cache. */
  lemma LeaveCache(start: State, s: State, slot: Slot, write: set<Pubkey>) returns (s': State)
    requires Reaches(start, s) && Core(s) && IsFlushing(s, DropCache(slot, write))
    ensures Reaches(start, s') && Core(s') && IsFlushing(s', NextSlot)
    ensures s' == s.(cache := s.cache - {slot}, background := s'.background)
    ensures var b, b' := s.background, s'.background;
      && b'.todo == b.todo && b'.clean == b.clean && b'.mark == b.mark
      && b'.written.Keys == b.written.Keys + (if Cleans(b, slot) then write else {})
  {
    hide Core, Reaches;
    s' := DoFlushDrop(s);
    assert FlushSlotNext(s, FlushDrop, s');
    TakeFlushSlot(start, s, FlushDrop, s');
  }

  lemma KillSlot(start: State, s: State, slot: Slot) returns (s': State)
    requires Reaches(start, s) && Core(s) && IsFlushing(s, PurgeKeys(slot, {}, {}))
    ensures Reaches(start, s') && Core(s')
    ensures s' == s.(roots := s.roots - {slot}, background := InPhase(s.background, DropCache(slot, {})))
  {
    hide Core, Reaches;
    s' := DoFlushDead(s);
    assert FlushSlotNext(s, FlushDead, s');
    TakeFlushSlot(start, s, FlushDead, s');
  }

  // ---------------------------------------------------------------- the relation

  lemma OldIsOutdated(index: Index, other: D.Index, slot: Slot, skip: set<Pubkey>, write: set<Pubkey>, reclaim: bool)
    requires SameIndex(index, other)
    ensures OldPairs(DropAt(index, slot, skip), slot, write, reclaim) == D.Outdated(other, slot, write, reclaim)
  {}

  lemma SameFlushed(index: Index, other: D.Index, slot: Slot, id: StorageId, skip: set<Pubkey>, write: set<Pubkey>,
                    reclaim: bool)
    requires SameIndex(index, other) && skip !! write && forall k | k in write :: (k, slot) in index
    ensures SameIndex(WrittenIndex(DropAt(index, slot, skip), slot, id, write, reclaim),
                      D.FlushIndex(other, slot, skip, write, D.Outdated(other, slot, write, reclaim)))
  {
    OldIsOutdated(index, other, slot, skip, write, reclaim);
    hide OldPairs;
    forall p: (Pubkey, Slot) | p.1 == slot && p.0 in write
      ensures p in other { assert p == (p.0, slot) && p in index.Keys; }
  }

  lemma SameSkipped(index: Index, other: D.Index, slot: Slot, skip: set<Pubkey>)
    requires SameIndex(index, other)
    ensures SameIndex(DropAt(index, slot, skip), D.FlushIndex(other, slot, skip, {}, {}))
  {}

  lemma SameFlushedStores(s: State, stores: D.Stores, slot: Slot, write: set<Pubkey>, outdated: Gone, dead: set<Slot>)
    requires SameStores(s.storages, s.storageMap, stores) && MapsOk(s.storages, s.storageMap, s.shrinkMap)
    requires IdsOk(s.storages, s.nextId, s.counts) && slot !in dead
    ensures SameStores(NewStorages(s, slot, write), s.storageMap[slot := s.nextId] - dead,
                       D.MarkObsolete(stores, outdated,
                         dead)[slot := D.Store(Restrict(CacheOf(s.cache, slot), write), {})])
  {}

  lemma SameKills(s: State, db: D.Db, slot: Slot, index: D.Index, write: set<Pubkey>, reclaim: bool)
    requires SameStores(s.storages, s.storageMap, db.stores)
    requires SameIndex(WrittenIndex(s.index, slot, s.nextId, write, reclaim), index)
    ensures Kills(s, slot, write, reclaim) == D.Emptied(index, db.stores, OldPairs(s.index, slot, write, reclaim))
    ensures slot !in Kills(s, slot, write, reclaim)
  {
    var gone := OldPairs(s.index, slot, write, reclaim);
    assert !Pending(gone, slot);
    hide OldPairs, WrittenIndex;
    var written := WrittenIndex(s.index, slot, s.nextId, write, reclaim);
    SameDead(written, index, s.storageMap, db.stores, gone);
    hide NoEntry, Pending, D.Emptied;
    assert DeadSlots(written, s.storageMap[slot := s.nextId], gone) == DeadSlots(written, s.storageMap, gone);
  }

  // ---------------------------------------------------------------- a batch

  /** A flush is between two slots. */
  ghost predicate Between(s: State, todo: set<Slot>, written: set<Pubkey>, clean: Option<Slot>, mark: bool) {
    && IsFlushing(s, NextSlot) && Calm(s)
    && s.background.todo == todo && s.background.written.Keys == written
    && s.background.clean == clean && s.background.mark == mark
  }

  /** Newer versions that the batch has written make a slot's cached ones needless. */
  lemma SkipVersions(start: State, s: State, slot: Slot, written: set<Pubkey>, clean: Option<Slot>, mark: bool)
    returns (s': State)
    requires Reaches(start, s) && Core(s) && IsNextSlot(s.background, slot) && slot in s.cache
    requires Between(s, s.background.todo, written, clean, mark)
    ensures Reaches(start, s') && Core(s')
    ensures var cleans := D.Cleans(clean, slot);
      && s' == s.(index := DropAt(s.index, slot, D.Skipped(s.cache, slot, written, cleans)),
        background := s'.background)
      && IsFlushing(s', PurgeKeys(slot, {}, D.Writes(s.cache, slot, written, cleans)))
      && s'.background == s.background.(todo := s.background.todo - {slot}, flushed := s'.background.flushed,
                                        phase := s'.background.phase)
  {
    hide Core, Reaches, DropAt;
    var cleans := D.Cleans(clean, slot);
    var s1 := DoFlushSlot(s, slot);
    assert FlushBatchNext(s, FlushSlot(slot), s1);
    TakeFlushBatch(start, s, FlushSlot(slot), s1);
    var skip, write := D.Skipped(s.cache, slot, written, cleans), D.Writes(s.cache, slot, written, cleans);
    assert s1.background.phase == PurgeKeys(slot, skip, write);
    SkipAll(start, s1, slot, skip, write);
    s' := s1.(index := DropAt(s.index, slot, skip), background := InPhase(s1.background, PurgeKeys(slot, {}, write)));
  }

  lemma AllIndexed(s: State, slot: Slot)
    requires Core(s) && IsFlushing(s, NextSlot) && s.storing == map[] && slot in s.cache
    ensures forall k | k in s.cache[slot] :: (k, slot) in s.index
    ensures MapsOk(s.storages, s.storageMap, s.shrinkMap) && IdsOk(s.storages, s.nextId, s.counts)
  {}

  /** A slot of which something is written. */
  lemma WriteMatches(s: State, s2: State, s': State, db: D.Db, slot: Slot, written: set<Pubkey>, cleans: bool,
                     mark: bool)
    requires Matches(s, db) && D.Writes(s.cache, slot, written, cleans) != {}
    requires s2 == s.(index := DropAt(s.index, slot, D.Skipped(s.cache, slot, written, cleans)),
      background := s2.background)
    requires MapsOk(s.storages, s.storageMap, s.shrinkMap) && IdsOk(s.storages, s.nextId, s.counts)
    requires slot in s.cache && forall k | k in s.cache[slot] :: (k, slot) in s.index
    requires var write, reclaim := D.Writes(s.cache, slot, written, cleans), mark && cleans;
      var dead := Kills(s2, slot, write, reclaim);
      s' == s2.(index := WrittenIndex(s2.index, slot, s2.nextId, write, reclaim),
        storages := NewStorages(s2, slot, write),
                counts := s'.counts, storageMap := s2.storageMap[slot := s2.nextId] - dead, roots := s2.roots - dead,
                nextId := s2.nextId + 1, background := s'.background, cache := s2.cache - {slot})
    ensures Matches(s', D.FlushSlot(db, slot, written, cleans, mark))
  {
    hide DropAt, WrittenIndex, OldPairs, Kills, D.FlushIndex, D.Emptied, D.MarkObsolete, D.Outdated, D.Skipped;
    hide SameIndex, SameStores, MapsOk, IdsOk, Restrict;
    var skip, write, reclaim := D.Skipped(s.cache, slot, written, cleans), D.Writes(s.cache, slot, written, cleans),
      mark && cleans;
    OldIsOutdated(s.index, db.index, slot, skip, write, reclaim);
    SameFlushed(s.index, db.index, slot, s.nextId, skip, write, reclaim);
    SameKills(s2, db, slot, D.FlushedIndex(db, slot, written, cleans, mark), write, reclaim);
    SameFlushedStores(s2, db.stores, slot, write, D.FlushReclaims(db, slot, written, cleans, mark),
                      Kills(s2, slot, write, reclaim));
  }

  /** A slot of which nothing is written. */
  lemma KillMatches(s: State, s': State, db: D.Db, slot: Slot, written: set<Pubkey>, cleans: bool, mark: bool)
    requires Matches(s, db) && D.Writes(s.cache, slot, written, cleans) == {}
    requires s' == s.(index := DropAt(s.index, slot, D.Skipped(s.cache, slot, written, cleans)),
      roots := s.roots - {slot},
                      background := s'.background, cache := s.cache - {slot})
    ensures Matches(s', D.FlushSlot(db, slot, written, cleans, mark))
  {
    hide DropAt, D.FlushIndex, D.Emptied, D.Outdated, D.Skipped, D.MarkObsolete, SameIndex, SameStores;
    SameSkipped(s.index, db.index, slot, D.Skipped(s.cache, slot, written, cleans));
    NoneOutdated(db.index, slot, cleans && mark);
    NothingKilled(s.storages, s.storageMap, D.FlushedIndex(db, slot, written, cleans, mark), db.stores);
  }

  lemma NoneOutdated(index: D.Index, slot: Slot, reclaim: bool)
    ensures D.Outdated(index, slot, {}, reclaim) == {}
  {}

  lemma NothingKilled(storages: Storages, storageMap: StorageMap, index: D.Index, stores: D.Stores)
    requires SameStores(storages, storageMap, stores)
    ensures D.Emptied(index, stores, {}) == {} && SameStores(storages, storageMap, D.MarkObsolete(stores, {}, {}))
  {}

  /** The newest slot left. */
  lemma FlushOne(start: State, s: State, db: D.Db, slot: Slot, todo: set<Slot>, written: set<Pubkey>,
                 clean: Option<Slot>,
                 mark: bool) returns (s': State)
    requires Reaches(start, s) && Core(s) && Between(s, todo, written, clean, mark) && Matches(s, db)
    requires slot in s.cache && IsNextSlot(s.background, slot)
    ensures Reaches(start, s') && Core(s') && s'.cache == s.cache - {slot}
    ensures Between(s', todo - {slot}, D.NowWritten(s.cache, slot, written, D.Cleans(clean, slot)), clean, mark)
    ensures Matches(s', D.FlushSlot(db, slot, written, D.Cleans(clean, slot), mark))
  {
    hide Core, Reaches, Matches, DropAt, WrittenIndex, Kills, NewStorages, MapsOk, IdsOk;
    AllIndexed(s, slot);
    var cleans := D.Cleans(clean, slot);
    var write := D.Writes(s.cache, slot, written, cleans);
    var s2 := SkipVersions(start, s, slot, written, clean, mark);
    NowWrittenIs(s.cache, slot, written, cleans);
    if write == {} {
      var s3 := KillSlot(start, s2, slot);
      s' := LeaveCache(start, s3, slot, {});
      KillMatches(s, s', db, slot, written, cleans, mark);
    } else {
      var s3 := WriteSlot(start, s2, slot, write, mark && cleans);
      s' := LeaveCache(start, s3, slot, write);
      WriteMatches(s, s2, s', db, slot, written, cleans, mark);
    }
  }

  lemma NowWrittenIs(cache: Cache, slot: Slot, written: set<Pubkey>, cleans: bool)
    ensures D.NowWritten(cache, slot, written, cleans)
         == written + (if cleans then D.Writes(cache, slot, written, cleans) else {})
  {}

  /** The slots of the batch that are cached, newest first. */
  ghost predicate IsOrder(slots: seq<Slot>, todo: set<Slot>, cache: Cache) {
    && (forall i, j :: 0 <= i < j < |slots| ==> slots[i] > slots[j])
    && forall x :: x in slots <==> x in todo && x in cache
  }

  lemma {:induction false} FlushAll(start: State, s: State, db: D.Db, slots: seq<Slot>, todo: set<Slot>,
                                    written: set<Pubkey>,
                                    clean: Option<Slot>, mark: bool) returns (s': State)
    requires Reaches(start, s) && Core(s) && Between(s, todo, written, clean, mark) && Matches(s, db)
    requires IsOrder(slots, todo, s.cache)
    ensures Reaches(start, s') && Core(s') && Resting(s') && Matches(s', D.FlushSlots(db, slots, written, clean, mark))
    decreases todo
  {
    hide Core, Reaches, Matches, D.FlushSlot, D.NowWritten, IsOrder;
    if todo == {} {
      s' := DoEndFlush(s);
      assert FlushBatchNext(s, EndFlush, s');
      TakeFlushBatch(start, s, EndFlush, s');
      StillMatches(s, s', db);
      NoSlots(slots, s.cache);
    } else {
      var slot := Sets.MaxOf(todo);
      if slot in s.cache {
        FirstSlot(slots, todo, s.cache, slot);
        var s1 := FlushOne(start, s, db, slot, todo, written, clean, mark);
        s' := FlushAll(start, s1, D.FlushSlot(db, slot, written, D.Cleans(clean, slot), mark), slots[1..],
          todo - {slot},
                       D.NowWritten(s.cache, slot, written, D.Cleans(clean, slot)), clean, mark);
        assert db.cache == s.cache by { SameCache(s, db); }
      } else {
        var s1 := DoFlushSkip(s, slot);
        assert FlushBatchNext(s, FlushSkip(slot), s1);
        TakeFlushBatch(start, s, FlushSkip(slot), s1);
        StillMatches(s, s1, db);
        SkippedSlot(slots, todo, s.cache, slot);
        s' := FlushAll(start, s1, db, slots, todo - {slot}, written, clean, mark);
      }
    }
  }

  lemma SameCache(s: State, db: D.Db)
    requires Matches(s, db)
    ensures s.cache == db.cache
  {}

  lemma StillMatches(s: State, s': State, db: D.Db)
    requires Matches(s, db) && s' == s.(background := s'.background, unflushed := s'.unflushed)
    ensures Matches(s', db)
  {}

  lemma NoSlots(slots: seq<Slot>, cache: Cache)
    requires IsOrder(slots, {}, cache)
    ensures slots == []
  {
    if slots != [] {
      HasFirst(slots);
      assert false;
    }
  }

  lemma HasFirst(slots: seq<Slot>)
    requires slots != []
    ensures slots[0] in slots
  {}

  lemma SkippedSlot(slots: seq<Slot>, todo: set<Slot>, cache: Cache, slot: Slot)
    requires IsOrder(slots, todo, cache) && slot !in cache
    ensures IsOrder(slots, todo - {slot}, cache)
  {}

  lemma FirstSlot(slots: seq<Slot>, todo: set<Slot>, cache: Cache, slot: Slot)
    requires IsOrder(slots, todo, cache) && slot in todo && slot in cache && forall x | x in todo :: x <= slot
    ensures slots != [] && slots[0] == slot && IsOrder(slots[1..], todo - {slot}, cache - {slot})
  {
    var i :| 0 <= i < |slots| && slots[i] == slot;
    assert slots[0] in slots;
    assert slots == [slot] + slots[1..];
    forall x ensures x in slots[1..] <==> x in todo - {slot} && x in cache - {slot} {
      assert x in slots <==> x == slot || x in slots[1..];
    }
  }

  /** Every cached root up to the bound is due. */
  lemma BatchIsOrder(s: State, db: D.Db, slots: seq<Slot>, upTo: Slot)
    requires Core(s) && Resting(s) && Matches(s, db) && D.IsBatch(db, slots, upTo)
    ensures IsOrder(slots, (set x | x in s.unflushed && x <= upTo), s.cache)
  {
    forall x ensures x in slots <==> x in s.unflushed && x <= upTo && x in s.cache {
      assert x in s.cache ==> !Done(s.everRooted, s.unflushed, s.background, x);
    }
  }

  lemma FlushRefines(start: State, s: State, db: D.Db, slots: seq<Slot>, upTo: Slot, clean: Option<Slot>, mark: bool)
    returns (s': State)
    requires Reaches(start, s) && Core(s) && Resting(s) && Matches(s, db) && D.IsBatch(db, slots, upTo)
    ensures Reaches(start, s') && Core(s') && Resting(s') && Matches(s', D.FlushSlots(db, slots, {}, clean, mark))
  {
    hide Core, Reaches, Matches, D.FlushSlots, D.IsBatch, IsOrder;
    BatchIsOrder(s, db, slots, upTo);
    var s1 := DoBeginFlush(s, upTo, clean, mark);
    assert FlushBatchNext(s, BeginFlush(upTo, clean, mark), s1);
    TakeFlushBatch(start, s, BeginFlush(upTo, clean, mark), s1);
    StillMatches(s, s1, db);
    s' := FlushAll(start, s1, db, slots, s1.background.todo, {}, clean, mark);
  }
}
