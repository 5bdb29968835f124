/**
 The invariant of the load protocol: what the index, the write cache, the two storage maps, the account
 counts and the background actor's progress have to do with one another in every reachable state.
 */
module LoadInvariant {
  import opened Types
  import opened LoadProtocol

  type StorageMap = map<Slot, StorageId>
  type Storages = map<StorageId, Storage>
  type Cache = map<Slot, map<Pubkey, Account>>

  // ---------------------------------------------------------------- the invariant

  /** The slot being flushed, as a set of at most one. */
  function Current(b: Background): set<Slot> {
    if b.Flushing? && !b.phase.NextSlot? then {b.phase.slot} else {}
  }

  function Todo(b: Background): set<Slot> {
    if b.Flushing? then b.todo else {}
  }

  /** The flush of this slot is over. */
  predicate Done(ever: set<Slot>, unflushed: set<Slot>, b: Background, slot: Slot) {
    slot in ever && slot !in unflushed && slot !in Todo(b) && slot !in Current(b)
  }

  ghost predicate CachedLive(index: Index, cache: Cache) {
    forall p | p in index :: index[p].Cached? ==> p.1 in cache && p.0 in cache[p.1]
  }

  ghost predicate StoredLive(index: Index, storages: Storages, storageMap: StorageMap, shrinkMap: StorageMap) {
    forall p | p in index :: index[p].AppendVec? ==>
      && (InMap(storageMap, p.1, index[p].id) || InMap(shrinkMap, p.1, index[p].id))
      && p.0 in AccountsOf(storages, index[p].id)
  }

  ghost predicate IdsOk(storages: Storages, nextId: StorageId, counts: map<StorageId, int>) {
    && (forall id | id in storages :: id < nextId && id in counts)
    && (forall id | id in counts :: id in storages)
  }

  /** Every storage holds what was stored in its slot. */
  ghost predicate ContentOk(storages: Storages, ever: set<Slot>, history: Cache) {
    forall id, k | id in storages && k in storages[id].accounts ::
      var slot := storages[id].slot;
      slot in ever && slot in history && k in history[slot] && history[slot][k] == storages[id].accounts[k]
  }

  ghost predicate MapsOk(storages: Storages, storageMap: StorageMap, shrinkMap: StorageMap) {
    && (forall slot | slot in storageMap :: storageMap[slot] in storages && storages[storageMap[slot]].slot == slot)
    && (forall slot | slot in shrinkMap ::
         shrinkMap[slot] in storages && storages[shrinkMap[slot]].slot == slot && slot in storageMap)
  }

  ghost predicate CacheOk(cache: Cache, history: Cache, storageMap: StorageMap, b: Background) {
    && (forall slot | slot in cache :: slot in history && history[slot] == cache[slot])
    && (forall slot | slot in storageMap :: slot in cache ==> slot in Current(b))
  }

  ghost predicate RootsOk(roots: set<Slot>, ever: set<Slot>, unflushed: set<Slot>, b: Background) {
    && roots <= ever && unflushed <= roots && Todo(b) <= roots && Current(b) <= ever
    && unflushed !! Todo(b) && Current(b) !! Todo(b) && Current(b) !! unflushed
  }

  ghost predicate StoredSlotsOk(storageMap: StorageMap, ever: set<Slot>, unflushed: set<Slot>, b: Background) {
    forall slot | slot in storageMap :: slot in ever && slot !in unflushed && slot !in Todo(b)
  }

  /** A rooted slot leaves the cache when its flush is over. */
  ghost predicate CachePending(cache: Cache, ever: set<Slot>, unflushed: set<Slot>, b: Background) {
    forall slot | slot in cache :: !Done(ever, unflushed, b, slot)
  }

  function Flushed(b: Background): set<Slot> {
    if b.Flushing? then b.flushed else {}
  }

  /** Roots are flushed in batches of ascending slots, newest first within the batch. */
  ghost predicate OrderOk(ever: set<Slot>, unflushed: set<Slot>, b: Background) {
    && (forall u, d | u in unflushed && d in ever :: d !in unflushed ==> d < u)
    && Current(b) <= Flushed(b) <= ever && Flushed(b) !! unflushed && Flushed(b) !! Todo(b)
    && (forall t, f | t in Todo(b) && f in Flushed(b) :: t < f)
    && (forall d, t | d in ever && t in Todo(b) :: d !in unflushed && d !in Todo(b) && d !in Flushed(b) ==> d < t)
    && (forall d, f | d in ever && f in Flushed(b) :: d !in unflushed && d !in Todo(b) && d !in Flushed(b) ==> d < f)
    && (forall c, f | c in Current(b) && f in Flushed(b) :: c <= f)
  }

  ghost predicate IndexRooted(index: Index, ever: set<Slot>, roots: set<Slot>) {
    forall p | p in index :: p.1 in ever ==> p.1 in roots
  }

  ghost predicate StoringOk(storing: map<nat, (Pubkey, Slot)>, ever: set<Slot>, cache: Cache, b: Background) {
    forall t | t in storing ::
      var (key, slot) := storing[t];
      slot !in ever && slot in cache && key in cache[slot] && !(b.Purging? && b.purged == slot)
  }

  /** Every cached account is in the index or on its way there, but for a slot being flushed or purged. */
  ghost predicate CacheIndexed(index: Index, cache: Cache, storing: map<nat, (Pubkey, Slot)>, b: Background) {
    forall slot, k | slot in cache && k in cache[slot] ::
      slot in Current(b) || (b.Purging? && b.purged == slot) || (k, slot) in index || InFlight(storing, k, slot)
  }

  predicate InFlight(storing: map<nat, (Pubkey, Slot)>, key: Pubkey, slot: Slot) {
    exists t | t in storing :: storing[t] == (key, slot)
  }

  /** Each key in the written set has a newer stored version than anything still to flush. */
  ghost predicate WrittenOk(b: Background, index: Index, roots: set<Slot>) requires b.Flushing? {
    forall k | k in b.written ::
      && (k, b.written[k]) in index && index[(k, b.written[k])].AppendVec?
      && b.written[k] in roots
      && (forall t | t in Todo(b) :: t < b.written[k])
      && (forall c | c in Current(b) :: c < b.written[k])
  }

  ghost predicate FlushOk(b: Background, index: Index, roots: set<Slot>, cache: Cache, storageMap: StorageMap,
                          storages: Storages) {
    b.Flushing? ==>
      && WrittenOk(b, index, roots)
      && match b.phase
         case NextSlot => true
         case PurgeKeys(slot, purge, write) =>
           && slot in cache && slot !in storageMap && slot in roots
           && purge <= b.written.Keys && write <= cache[slot].Keys && purge !! write
           && (forall k | k in write :: (k, slot) in index)
           && (forall p | p in index && p.1 == slot :: p.0 in purge || p.0 in write)
           && (forall p | p in index && p.1 == slot :: index[p].Cached?)
         case IndexKeys(slot, id, left, write) =>
           && slot in cache && slot in roots && InMap(storageMap, slot, id)
           && left <= write && write == AccountsOf(storages, id).Keys
           && (forall p | p in index && p.1 == slot :: index[p] == if p.0 in left then Cached else AppendVec(id))
           && (forall k | k in write :: (k, slot) in index)
         case FlushReclaim(slot, write) =>
           && slot in roots && (forall p | p in index && p.1 == slot :: index[p].AppendVec?)
           && (forall k | k in write :: (k, slot) in index)
         case DropCache(slot, write) =>
           && (forall p | p in index && p.1 == slot :: index[p].AppendVec?)
           && (forall k | k in write :: (k, slot) in index)
  }

  ghost predicate PurgeOk(b: Background, ever: set<Slot>, index: Index) {
    b.Purging? ==> b.purged !in ever && forall p | p in index && p.1 == b.purged :: p.0 in b.keys
  }

  ghost predicate ShrinkOk(b: Background, index: Index, storages: Storages, storageMap: StorageMap,
                           shrinkMap: StorageMap,
                           counts: map<StorageId, int>) {
    && (!b.Shrinking? ==> shrinkMap == map[])
    && (b.Shrinking? ==>
          && (forall slot | slot in shrinkMap :: slot in b.slots)
          && forall slot | slot in b.slots ::
               && slot in storageMap && InMap(shrinkMap, slot, b.slots[slot].id)
               && ShrinkSlotOk(index, storages, storageMap[slot], counts, slot, b.slots[slot]))
  }

  /** Keys that the shrink has moved to its new storage or is about to. */
  function Rewritten(index: Index, slot: Slot, id: StorageId, left: set<Pubkey>): (keys: set<Pubkey>)
    ensures forall k :: k in keys <==> k in Refs(index, slot, id) || k in left
  {
    set k | k in Refs(index, slot, id) + left
  }

  ghost predicate ShrinkSlotOk(index: Index, storages: Storages, mapped: StorageId, counts: map<StorageId, int>,
                               slot: Slot, phase: ShrinkPhase) {
    match phase
    case ShrinkIndex(id, left, zero) =>
      && mapped != id
      && left <= AccountsOf(storages, id).Keys && zero !! AccountsOf(storages, id).Keys
      && (forall k | k in left :: (k, slot) in index)
      && (forall p | p in index && p.1 == slot :: index[p] == AppendVec(id) || p.0 in left || p.0 in zero)
      && id in counts && counts[id] == |Rewritten(index, slot, id, left)|
    case ShrinkDrop(id) => mapped == id
  }

  ghost predicate ReclaimsOk(reclaims: set<(Pubkey, Slot)>, index: Index, storageMap: StorageMap, b: Background) {
    && (forall p | p in reclaims :: p !in index && p.1 in storageMap && p.1 !in Current(b))
    && (!b.Cleaning? && !(b.Flushing? && (b.phase.IndexKeys? || b.phase.FlushReclaim?)) ==> reclaims == {})
  }

  ghost predicate DeadOk(dead: set<Slot>, storageMap: StorageMap, counts: map<StorageId, int>, b: Background) {
    && (!Reclaiming(b) ==> dead == {})
    && (forall slot | slot in dead ::
         slot in storageMap && slot !in Current(b) && storageMap[slot] in counts && counts[storageMap[slot]] == 0)
  }

  /** Writes of the flush in progress that are counted but not yet indexed. */
  function Unindexed(b: Background, slot: Slot): set<Pubkey> {
    if b.Flushing? && b.phase.IndexKeys? && b.phase.slot == slot then b.phase.left else {}
  }

  /** What a storage counts: index entries, writes not yet indexed, and reclaims not yet subtracted. */
  function Counted(index: Index, b: Background, reclaims: set<(Pubkey, Slot)>, slot: Slot,
                   id: StorageId): (keys: set<Pubkey>)
    ensures forall k :: k in keys <==>
      k in Refs(index, slot, id) || k in Unindexed(b, slot) || k in KeysAt(reclaims, slot)
  {
    set k | k in Refs(index, slot, id) + Unindexed(b, slot) + KeysAt(reclaims, slot)
  }

  /** Is the storage at `slot` the old one of a shrink that is rewriting the index? */
  predicate BeingReplaced(b: Background, slot: Slot) {
    b.Shrinking? && slot in b.slots && b.slots[slot].ShrinkIndex?
  }

  ghost predicate CountsOk(index: Index, b: Background, reclaims: set<(Pubkey, Slot)>, storageMap: StorageMap,
                           counts: map<StorageId, int>) {
    forall slot | slot in storageMap && !BeingReplaced(b, slot) ::
      storageMap[slot] in counts && counts[storageMap[slot]] == |Counted(index, b, reclaims, slot, storageMap[slot])|
  }

  ghost predicate Core(s: State) {
    && CachedLive(s.index, s.cache)
    && StoredLive(s.index, s.storages, s.storageMap, s.shrinkMap)
    && IdsOk(s.storages, s.nextId, s.counts)
    && ContentOk(s.storages, s.everRooted, s.history)
    && MapsOk(s.storages, s.storageMap, s.shrinkMap)
    && CacheOk(s.cache, s.history, s.storageMap, s.background)
    && RootsOk(s.roots, s.everRooted, s.unflushed, s.background)
    && StoredSlotsOk(s.storageMap, s.everRooted, s.unflushed, s.background)
    && CachePending(s.cache, s.everRooted, s.unflushed, s.background)
    && OrderOk(s.everRooted, s.unflushed, s.background)
    && IndexRooted(s.index, s.everRooted, s.roots)
    && StoringOk(s.storing, s.everRooted, s.cache, s.background)
    && CacheIndexed(s.index, s.cache, s.storing, s.background)
    && FlushOk(s.background, s.index, s.roots, s.cache, s.storageMap, s.storages)
    && PurgeOk(s.background, s.everRooted, s.index)
    && ShrinkOk(s.background, s.index, s.storages, s.storageMap, s.shrinkMap, s.counts)
    && ReclaimsOk(s.reclaims, s.index, s.storageMap, s.background)
    && DeadOk(s.dead, s.storageMap, s.counts, s.background)
    && CountsOk(s.index, s.background, s.reclaims, s.storageMap, s.counts)
  }
}
