/**
 Shrink as steps of the load protocol: the new storage, the index key by key, the swap.
 */
module RefineShrink {
  import opened Types
  import opened LoadProtocol
  import opened LoadInvariant
  import opened LoadHistory
  import opened LoadPaths
  import opened Refinement
  import opened RefineClean
  import D = Database
  import DI = DatabaseInvariant
  import L = LoadDatabase

  /** The entries point to the new storage. */
  function Moved(index: Index, slot: Slot, id: StorageId, keys: set<Pubkey>): Index {
    index + (map p | p in D.Pairs(keys, slot) :: AppendVec(id))
  }

  lemma MovedNext(index: Index, slot: Slot, id: StorageId, keys: set<Pubkey>, key: Pubkey)
    requires key in keys
    ensures Moved(index[(key, slot) := AppendVec(id)], slot, id, keys - {key}) == Moved(index, slot, id, keys)
  {
    forall p ensures p in D.Pairs(keys, slot) <==> p in D.Pairs(keys - {key}, slot) || p == (key, slot) {}
  }

  lemma MovedNone(index: Index, slot: Slot, id: StorageId)
    ensures Moved(index, slot, id, {}) == index
  {
    assert D.Pairs({}, slot) == {};
  }

  ghost predicate IsShrinking(s: State, slot: Slot, phase: ShrinkPhase) {
    s.background == Shrinking(map[slot := phase]) && s.readers == map[]
  }

  lemma {:induction false} MoveAll(start: State, s: State, slot: Slot, id: StorageId, left: set<Pubkey>,
                                   zero: set<Pubkey>)
    requires Reaches(start, s) && Core(s) && IsShrinking(s, slot, ShrinkIndex(id, left, zero))
    ensures var s' := s.(index := Moved(s.index, slot, id, left),
      background := Shrinking(map[slot := ShrinkIndex(id, {}, zero)]));
      Reaches(start, s') && Core(s')
    decreases left
  {
    hide Core, Reaches, Moved;
    if left == {} {
      MovedNone(s.index, slot, id);
    } else {
      var key :| key in left;
      var s1 := DoShrinkIndexKey(s, slot, key);
      assert ShrinkSlotNext(s, ShrinkIndexKey(slot, key), s1);
      TakeShrinkSlot(start, s, ShrinkIndexKey(slot, key), s1);
      MovedNext(s.index, slot, id, left, key);
      assert s1.background.slots == map[slot := ShrinkIndex(id, left - {key}, zero)];
      MoveAll(start, s1, slot, id, left - {key}, zero);
    }
  }

  lemma {:induction false} DropAll(start: State, s: State, slot: Slot, id: StorageId, zero: set<Pubkey>)
    requires Reaches(start, s) && Core(s) && IsShrinking(s, slot, ShrinkIndex(id, {}, zero))
    ensures var s' := s.(index := DropAt(s.index, slot, zero),
      background := Shrinking(map[slot := ShrinkIndex(id, {}, {})]));
      Reaches(start, s') && Core(s')
    decreases zero
  {
    hide Core, Reaches, DropAt, DropKey;
    if zero == {} {
      DropAtNone(s.index, slot);
    } else {
      var key :| key in zero;
      var s1 := DoShrinkZeroKey(s, slot, key);
      assert ShrinkSlotNext(s, ShrinkZeroKey(slot, key), s1);
      TakeShrinkSlot(start, s, ShrinkZeroKey(slot, key), s1);
      DropAtNext(s.index, slot, zero, key);
      assert s1.background.slots == map[slot := ShrinkIndex(id, {}, zero - {key})];
      DropAll(start, s1, slot, id, zero - {key});
    }
  }

  /** The swap of the storages. */
  lemma Swap(start: State, s: State, slot: Slot, id: StorageId)
    requires Reaches(start, s) && Core(s) && IsShrinking(s, slot, ShrinkIndex(id, {}, {}))
    ensures var s' := s.(storageMap := s.storageMap[slot := id], background := Shrinking(map[slot := ShrinkDrop(id)]));
      Reaches(start, s') && Core(s')
  {
    hide Core, Reaches;
    var s1 := DoShrinkSwap(s, slot);
    assert ShrinkSwapNext(s, ShrinkSwap(slot), s1);
    TakeShrinkSwap(start, s, ShrinkSwap(slot), s1);
    assert s1.background.slots == map[slot := ShrinkDrop(id)];
  }

  lemma End(start: State, s: State, slot: Slot, id: StorageId)
    requires Reaches(start, s) && Core(s) && IsShrinking(s, slot, ShrinkDrop(id)) && s.shrinkMap == map[slot := id]
    ensures var s' := s.(shrinkMap := map[], background := Idle); Reaches(start, s') && Core(s')
  {
    hide Core, Reaches;
    var s1 := DoShrinkEnd(s, slot);
    assert ShrinkSwapNext(s, ShrinkEnd(slot), s1);
    TakeShrinkSwap(start, s, ShrinkEnd(slot), s1);
    assert s1.background.slots == map[] && s1.shrinkMap == map[];
    assert ShrinkSwapNext(s1, EndShrink, DoEndShrink(s1));
    TakeShrinkSwap(start, s1, EndShrink, DoEndShrink(s1));
  }

  /** What the shrunk storage is to hold. */
  function Kept(s: State, slot: Slot, zero: set<Pubkey>): set<Pubkey> requires slot in s.storageMap {
    Refs(s.index, slot, s.storageMap[slot]) - zero
  }

  function Shrunk(s: State, slot: Slot, zero: set<Pubkey>): Storage requires slot in s.storageMap {
    Storage(slot, Restrict(AccountsOf(s.storages, s.storageMap[slot]), Kept(s, slot, zero)))
  }

  function Rewriting(s: State, slot: Slot, zero: set<Pubkey>, counts: map<StorageId, int>): State
    requires slot in s.storageMap
  {
    s.(storages := s.storages[s.nextId := Shrunk(s, slot, zero)], counts := counts, shrinkMap := map[slot := s.nextId],
       nextId := s.nextId + 1, background := Shrinking(map[slot := ShrinkIndex(s.nextId, Kept(s, slot, zero), zero)]))
  }

  lemma BeginNone(start: State, s: State) returns (s': State)
    requires Reaches(start, s) && Core(s) && Resting(s)
    ensures Reaches(start, s') && Core(s') && s' == s.(background := Shrinking(map[]))
  {
    hide Core, Reaches;
    s' := DoBeginShrink(s);
    assert ShrinkSlotNext(s, BeginShrink, s');
    TakeShrinkSlot(start, s, BeginShrink, s');
  }

  lemma SameProper(s: State, s': State, slot: Slot, zero: set<Pubkey>)
    requires Proper(s, ShrinkSlot(slot, zero)) && s' == s.(background := s'.background)
    ensures Proper(s', ShrinkSlot(slot, zero))
  {
    hide SingleStored, IsZeroWrite;
  }

  /** The new storage is written. */
  lemma WriteNew(start: State, s: State, slot: Slot, zero: set<Pubkey>) returns (s': State)
    requires Reaches(start, s) && Core(s) && Resting(s) && slot in s.storageMap && slot !in s.cache
    requires zero < Refs(s.index, slot, s.storageMap[slot]) && Proper(s, ShrinkSlot(slot, zero))
    ensures Reaches(start, s') && Core(s')
    ensures s' == Rewriting(s, slot, zero, s'.counts)
  {
    hide Core, Reaches, Refs, Restrict, Proper;
    var s1 := BeginNone(start, s);
    SameProper(s, s1, slot, zero);
    s' := DoShrinkSlot(s1, slot, zero);
    assert ShrinkSlotNext(s1, ShrinkSlot(slot, zero), s');
    TakeShrinkSlot(start, s1, ShrinkSlot(slot, zero), s');
  }

  function ShrunkIndex(index: Index, slot: Slot, id: StorageId, alive: set<Pubkey>, zero: set<Pubkey>): Index {
    DropAt(Moved(index, slot, id, alive), slot, zero)
  }

  lemma ShrinkSteps(start: State, s: State, slot: Slot, zero: set<Pubkey>) returns (s': State)
    requires Reaches(start, s) && Core(s) && Resting(s) && slot in s.storageMap && slot !in s.cache
    requires zero < Refs(s.index, slot, s.storageMap[slot]) && Proper(s, ShrinkSlot(slot, zero))
    ensures Reaches(start, s') && Core(s') && Resting(s')
    ensures s' == s.(index := ShrunkIndex(s.index, slot, s.nextId, Kept(s, slot, zero), zero),
                     storages := s.storages[s.nextId := Shrunk(s, slot, zero)], counts := s'.counts,
                     storageMap := s.storageMap[slot := s.nextId], nextId := s.nextId + 1)
  {
    hide Core, Reaches, Refs, Restrict, Moved, DropAt, Proper;
    var alive, id := Kept(s, slot, zero), s.nextId;
    var s2 := WriteNew(start, s, slot, zero);
    MoveAll(start, s2, slot, id, alive, zero);
    var s3 := s2.(index := Moved(s.index, slot, id, alive),
      background := Shrinking(map[slot := ShrinkIndex(id, {}, zero)]));
    DropAll(start, s3, slot, id, zero);
    var s4 := s3.(index := DropAt(s3.index, slot, zero), background := Shrinking(map[slot := ShrinkIndex(id, {}, {})]));
    Swap(start, s4, slot, id);
    var s5 := s4.(storageMap := s4.storageMap[slot := id], background := Shrinking(map[slot := ShrinkDrop(id)]));
    End(start, s5, slot, id);
    s' := s5.(shrinkMap := map[], background := Idle);
  }

  // ---------------------------------------------------------------- the relation

  /** A storage's entries are its alive accounts. */
  lemma RefsAreAlive(s: State, db: D.Db, slot: Slot)
    requires StoredLive(s.index, s.storages, s.storageMap, s.shrinkMap) && s.shrinkMap == map[]
    requires Matches(s, db) && slot in s.storageMap
    ensures Refs(s.index, slot, s.storageMap[slot]) == D.AliveAt(db.index, slot)
  {
    hide Refs, D.AliveAt;
    forall k ensures k in Refs(s.index, slot, s.storageMap[slot]) <==> k in D.AliveAt(db.index, slot) {
      assert (k, slot) in s.index.Keys <==> (k, slot) in db.index.Keys;
    }
  }

  lemma SameShrunk(index: Index, other: D.Index, slot: Slot, id: StorageId, alive: set<Pubkey>, zero: set<Pubkey>)
    requires SameIndex(index, other) && forall k | k in alive :: (k, slot) in other && other[(k, slot)].Stored?
    ensures SameIndex(ShrunkIndex(index, slot, id, alive, zero), D.DropEntries(other, slot, zero))
  {
    forall p: (Pubkey, Slot) | p.1 == slot && p.0 in alive
      ensures p in other && other[p].Stored? { assert p == (p.0, slot); }
  }

  lemma SameStoresAfter(s: State, stores: D.Stores, slot: Slot, accounts: map<Pubkey, Account>)
    requires SameStores(s.storages, s.storageMap, stores) && MapsOk(s.storages, s.storageMap, s.shrinkMap)
    requires IdsOk(s.storages, s.nextId, s.counts)
    ensures SameStores(s.storages[s.nextId := Storage(slot, accounts)], s.storageMap[slot := s.nextId],
                       stores[slot := D.Store(accounts, {})])
  {}

  lemma ShrinkIsProper(s: State, db: D.Db, slot: Slot, zero: set<Pubkey>)
    requires Matches(s, db) && D.CanShrink(db, slot, zero)
    requires DI.StoresOk(db.stores, db.cache, db.ever, db.history) && DI.StoredMatches(db.index, db.stores)
    requires DI.RefsCover(db.refs, db.stores)
    ensures Proper(s, ShrinkSlot(slot, zero))
  {
    hide D.CanShrink, DI.StoresOk, DI.StoredMatches, DI.RefsCover, Proper;
    SameData(s, db);
    L.ShrinkIsProper(s, db, slot, zero);
  }

  lemma ShrinkRefines(start: State, s: State, db: D.Db, slot: Slot, zero: set<Pubkey>) returns (s': State)
    requires Reaches(start, s) && Core(s) && Resting(s) && Matches(s, db) && DI.Core(db) && D.CanShrink(db, slot, zero)
    ensures Reaches(start, s') && Core(s') && Resting(s') && Matches(s', D.Shrink(db, slot, zero))
  {
    hide Reaches, Refs, Restrict, ShrunkIndex, Proper, D.DropEntries, D.AliveAt;
    var alive := D.AliveAt(db.index, slot) - zero;
    if alive == {} {
      s' := s;
    } else {
      RefsAreAlive(s, db, slot);
      ShrinkIsProper(s, db, slot, zero);
      SameShrunk(s.index, db.index, slot, s.nextId, alive, zero);
      SameStoresAfter(s, db.stores, slot, Restrict(db.stores[slot].accounts, alive));
      hide Core, DI.Core, SameIndex, SameStores;
      s' := ShrinkSteps(start, s, slot, zero);
    }
  }
}
