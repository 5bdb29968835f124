/**
 Every operation of the database is a sequence of proper steps of the load protocol, so what is proved of concurrent
 loads is proved of the database's operations.
 */
module Refinement {
  import opened Types
  import opened LoadProtocol
  import opened LoadInvariant
  import opened LoadHistory
  import opened LoadPaths
  import D = Database
  import DI = DatabaseInvariant
  import T = DatabaseTheorems

  // ---------------------------------------------------------------- the relation

  ghost predicate SameIndex(index: Index, other: D.Index) {
    index.Keys == other.Keys && forall p | p in index :: index[p].Cached? <==> other[p].Cached?
  }

  ghost predicate SameStores(storages: Storages, storageMap: StorageMap, stores: D.Stores) {
    && storageMap.Keys == stores.Keys
    && forall x | x in storageMap :: AccountsOf(storages, storageMap[x]) == stores[x].accounts
  }

  /** The protocol state holds the database. */
  ghost predicate Matches(s: State, db: D.Db) {
    && SameIndex(s.index, db.index) && SameStores(s.storages, s.storageMap, db.stores)
    && s.roots == db.roots && s.everRooted == db.ever && s.cache == db.cache && s.history == db.history
  }

  /** Nothing is in progress. */
  ghost predicate Resting(s: State) {
    s.background.Idle? && Calm(s)
  }

  /** Neither a store nor a load is in progress, and nothing waits to be reclaimed. */
  ghost predicate Calm(s: State) {
    s.storing == map[] && s.readers == map[] && s.reclaims == {} && s.dead == {} && s.shrinkMap == map[]
  }

  // ---------------------------------------------------------------- stores and roots

  function Stored(s: State, slot: Slot, accounts: map<Pubkey, Account>): State {
    var entries := CacheOf(s.cache, slot) + accounts;
    s.(cache := s.cache[slot := entries], history := s.history[slot := entries],
       index := AddCached(s.index, accounts.Keys, slot))
  }

  function AddCached(index: Index, keys: set<Pubkey>, slot: Slot): Index {
    index + (map p | p in D.Pairs(keys, slot) :: StorageLocation.Cached)
  }

  lemma AddCachedOne(index: Index, key: Pubkey, slot: Slot)
    ensures AddCached(index, {key}, slot) == index[(key, slot) := Cached]
  {
    assert D.Pairs({key}, slot) == {(key, slot)};
  }

  lemma AddCachedMore(index: Index, keys: set<Pubkey>, key: Pubkey, slot: Slot)
    ensures AddCached(AddCached(index, keys, slot), {key}, slot) == AddCached(index, keys + {key}, slot)
  {
    forall p ensures p in D.Pairs(keys + {key}, slot) <==> p in D.Pairs(keys, slot) || p in D.Pairs({key}, slot) {}
  }

  /** One key: the cache first, then the index. */
  lemma StoreOne(start: State, s: State, slot: Slot, key: Pubkey, a: Account)
    requires Reaches(start, s) && Core(s) && Resting(s) && slot !in s.everRooted
    ensures Reaches(start, Stored(s, slot, map[key := a])) && Core(Stored(s, slot, map[key := a]))
  {
    hide Core, Reaches;
    var s1 := DoStoreCache(s, 0, slot, key, a);
    assert StoreNext(s, StoreCache(0, slot, key, a), s1);
    TakeStore(start, s, StoreCache(0, slot, key, a), s1);
    var s2 := DoStoreIndex(s1, 0);
    assert StoreNext(s1, StoreIndex(0), s2);
    TakeStore(start, s1, StoreIndex(0), s2);
    OneStored(s, slot, key, a);
    assert s2 == Stored(s, slot, map[key := a]);
  }

  lemma OneStored(s: State, slot: Slot, key: Pubkey, a: Account)
    ensures var s' := Stored(s, slot, map[key := a]);
      && s'.cache == s.cache[slot := CacheOf(s.cache, slot)[key := a]]
      && s'.history == s.history[slot := CacheOf(s.cache, slot)[key := a]]
      && s'.index == s.index[(key, slot) := Cached]
  {
    assert (map[key := a]).Keys == {key};
    AddCachedOne(s.index, key, slot);
    hide AddCached;
    assert CacheOf(s.cache, slot) + map[key := a] == CacheOf(s.cache, slot)[key := a];
  }

  lemma {:induction false} StoreAll(start: State, s: State, slot: Slot, accounts: map<Pubkey, Account>)
    requires Reaches(start, s) && Core(s) && Resting(s) && slot !in s.everRooted && accounts != map[]
    ensures Reaches(start, Stored(s, slot, accounts)) && Core(Stored(s, slot, accounts))
    decreases accounts.Keys
  {
    hide Core, Reaches, Stored;
    var key :| key in accounts;
    var rest := accounts - {key};
    if rest == map[] {
      assert accounts == map[key := accounts[key]];
      StoreOne(start, s, slot, key, accounts[key]);
    } else {
      StoreAll(start, s, slot, rest);
      var s1 := Stored(s, slot, rest);
      StillResting(s, slot, rest);
      StoreOne(start, s1, slot, key, accounts[key]);
      StoredTwice(s, slot, rest, key, accounts[key]);
      assert rest + map[key := accounts[key]] == accounts;
    }
  }

  lemma StillResting(s: State, slot: Slot, accounts: map<Pubkey, Account>)
    requires Resting(s)
    ensures Resting(Stored(s, slot, accounts)) && Stored(s, slot, accounts).everRooted == s.everRooted
  {}

  lemma StoredTwice(s: State, slot: Slot, rest: map<Pubkey, Account>, key: Pubkey, a: Account)
    ensures Stored(Stored(s, slot, rest), slot, map[key := a]) == Stored(s, slot, rest + map[key := a])
  {
    var more := rest + map[key := a];
    var cached := CacheOf(s.cache, slot);
    assert (map[key := a]).Keys == {key} && more.Keys == rest.Keys + {key};
    AddCachedMore(s.index, rest.Keys, key, slot);
    Concat(cached, rest, map[key := a]);
    UpdateTwice(s.cache, slot, cached + rest, cached + more);
    UpdateTwice(s.history, slot, cached + rest, cached + more);
    hide AddCached;
    assert CacheOf(s.cache[slot := cached + rest], slot) == cached + rest;
  }

  lemma Concat(a: map<Pubkey, Account>, b: map<Pubkey, Account>, c: map<Pubkey, Account>)
    ensures (a + b) + c == a + (b + c)
  {}

  lemma UpdateTwice<V>(m: map<Slot, V>, k: Slot, a: V, b: V)
    ensures m[k := a][k := b] == m[k := b]
  {}

  lemma StoreMatches(s: State, db: D.Db, slot: Slot, accounts: map<Pubkey, Account>)
    requires Matches(s, db) && accounts != map[]
    ensures Matches(Stored(s, slot, accounts), D.StoreAccounts(db, slot, accounts))
  {}

  lemma StoreRefines(start: State, s: State, db: D.Db, slot: Slot, accounts: map<Pubkey, Account>) returns (s': State)
    requires Reaches(start, s) && Core(s) && Resting(s) && Matches(s, db) && D.CanStore(db, slot)
    ensures Reaches(start, s') && Core(s') && Resting(s') && Matches(s', D.StoreAccounts(db, slot, accounts))
  {
    if accounts == map[] {
      s' := s;
    } else {
      StoreMatches(s, db, slot, accounts);
      hide Core, Reaches, Matches;
      StoreAll(start, s, slot, accounts);
      s' := Stored(s, slot, accounts);
    }
  }

  lemma RootRefines(start: State, s: State, db: D.Db, slot: Slot) returns (s': State)
    requires Reaches(start, s) && Core(s) && Resting(s) && Matches(s, db) && D.CanAddRoot(db, slot)
    ensures Reaches(start, s') && Core(s') && Resting(s') && Matches(s', D.AddRoot(db, slot))
  {
    hide Core, Reaches;
    s' := DoAddRoot(s, slot);
    assert StoreNext(s, AddRoot(slot), s');
    TakeStore(start, s, AddRoot(slot), s');
  }

  // ---------------------------------------------------------------- purging an unrooted slot

  function DropAt(index: Index, slot: Slot, keys: set<Pubkey>): Index {
    map p | p in index && !(p.1 == slot && p.0 in keys) :: index[p]
  }

  lemma DropAtNext(index: Index, slot: Slot, keys: set<Pubkey>, key: Pubkey)
    requires key in keys
    ensures DropAt(DropKey(index, key, {slot}), slot, keys - {key}) == DropAt(index, slot, keys)
  {}

  lemma DropAtNone(index: Index, slot: Slot)
    ensures DropAt(index, slot, {}) == index
  {}

  lemma {:induction false} PurgeAll(start: State, s: State, slot: Slot, keys: set<Pubkey>)
    requires Reaches(start, s) && Core(s) && s.readers == map[] && s.background == Purging(slot, keys)
    ensures var s' := s.(index := DropAt(s.index, slot, keys), background := Purging(slot, {}));
      Reaches(start, s') && Core(s')
    decreases keys
  {
    hide Core, Reaches, DropAt, DropKey;
    if keys == {} {
      DropAtNone(s.index, slot);
    } else {
      var key :| key in keys;
      var s1 := DoPurgeKey(s, key);
      assert PurgeNext(s, PurgeKey(key), s1);
      TakePurge(start, s, PurgeKey(key), s1);
      DropAtNext(s.index, slot, keys, key);
      PurgeAll(start, s1, slot, keys - {key});
    }
  }

  function Purged(s: State, slot: Slot): State {
    s.(index := DropAt(s.index, slot, CacheOf(s.cache, slot).Keys), cache := s.cache - {slot},
      history := s.history - {slot})
  }

  lemma PurgeSlot(start: State, s: State, slot: Slot)
    requires Reaches(start, s) && Core(s) && Resting(s) && slot in s.cache && slot !in s.everRooted
    ensures Reaches(start, Purged(s, slot)) && Core(Purged(s, slot))
  {
    hide Core, Reaches, DropAt;
    var keys := s.cache[slot].Keys;
    var s1 := DoBeginPurge(s, slot);
    assert PurgeNext(s, BeginPurge(slot), s1);
    TakePurge(start, s, BeginPurge(slot), s1);
    PurgeAll(start, s1, slot, keys);
    var s2 := s1.(index := DropAt(s.index, slot, keys), background := Purging(slot, {}));
    assert PurgeNext(s2, EndPurge, DoEndPurge(s2));
    TakePurge(start, s2, EndPurge, DoEndPurge(s2));
  }

  lemma PurgeRefines(start: State, s: State, db: D.Db, slot: Slot) returns (s': State)
    requires Reaches(start, s) && Core(s) && Resting(s) && Matches(s, db) && DI.Core(db) && D.CanPurgeSlot(db, slot)
    ensures Reaches(start, s') && Core(s') && Resting(s') && Matches(s', D.PurgeSlot(db, slot))
  {
    hide Core, Reaches, DI.Core, DropAt;
    if slot !in s.cache {
      NothingToPurge(db, slot);
      s' := s;
    } else {
      PurgedIsCached(db, slot);
      PurgeMatches(s, db, slot);
      PurgeSlot(start, s, slot);
      s' := Purged(s, slot);
    }
  }

  lemma PurgeMatches(s: State, db: D.Db, slot: Slot)
    requires Matches(s, db) && slot in s.cache && forall p | p in db.index && p.1 == slot :: p.0 in db.cache[slot]
    ensures Matches(Purged(s, slot), D.PurgeSlot(db, slot))
  {}

  lemma NothingToPurge(db: D.Db, slot: Slot)
    requires DI.Core(db) && D.CanPurgeSlot(db, slot) && slot !in db.cache
    ensures D.PurgeSlot(db, slot) == db
  {
    assert slot !in db.history && slot !in db.stores;
    assert forall p | p in db.index :: p.1 != slot;
    assert (map p | p in db.index && p.1 != slot :: db.index[p]) == db.index;
  }

  /** Every entry of an unrooted slot is of a cached account. */
  lemma PurgedIsCached(db: D.Db, slot: Slot)
    requires DI.Core(db) && D.CanPurgeSlot(db, slot) && slot in db.cache
    ensures forall p | p in db.index && p.1 == slot :: p.0 in db.cache[slot]
  {
    assert slot !in db.stores;
  }
}
