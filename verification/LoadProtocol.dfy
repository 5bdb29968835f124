/**
 The load protocol of the accounts database as a transition system.

 Readers run `do_load` step by step: one atomic read of the index, then separate
 lookups in the write cache or in the two storage maps, then a retry. Beside them
 run foreground stores into unrooted slots and one background actor that
 flushes, cleans, purges, or shrinks several slots in parallel. Every step below is
 one atomic access of the program: one index entry, one map, one counter.
 */
module LoadProtocol {
  import opened Types

  /** An account storage file: written once. */
  datatype Storage = Storage(slot: Slot, accounts: map<Pubkey, Account>)

  /** Progress of the flush of one slot. */
  datatype FlushPhase =
    | NextSlot
    | PurgeKeys(slot: Slot, purge: set<Pubkey>, write: set<Pubkey>)
    | IndexKeys(slot: Slot, id: StorageId, left: set<Pubkey>, write: set<Pubkey>)
    | FlushReclaim(slot: Slot, write: set<Pubkey>)
    | DropCache(slot: Slot, write: set<Pubkey>)

  /** Progress of the shrink of one slot. */
  datatype ShrinkPhase =
    | ShrinkIndex(id: StorageId, left: set<Pubkey>, zero: set<Pubkey>)
    | ShrinkDrop(id: StorageId)

  datatype Background =
    | Idle
      // `clean` is the max clean root when flushing with cleaning, `mark` is MarkObsoleteAccounts::Enabled,
      // `flushed` are the slots of the batch begun so far, `written` the slot each key was written from.
    | Flushing(todo: set<Slot>, flushed: set<Slot>, clean: Option<Slot>, mark: bool, written: map<Pubkey, Slot>,
      phase: FlushPhase)
    | Cleaning(reclaiming: bool)
    | Purging(purged: Slot, keys: set<Pubkey>)
    | Shrinking(slots: map<Slot, ShrinkPhase>)

  datatype ReaderPhase =
    | ReadIndex(prev: Option<(Slot, StorageLocation)>)
    | LookupCache(slot: Slot)
    | LookupMap(slot: Slot, id: StorageId)
    | LookupShrinkMap(slot: Slot, id: StorageId)
    | LookupMapAgain(slot: Slot, id: StorageId)
    | Loaded(slot: Slot, account: Account)
    | Missing
    | Panicked  // "Bad index entry detected" or an accessor that must exist does not

  /** `fixed` is LoadHint::FixedMaxRoot; `locked` means the index entry's lock is held (the slow path);
      `misses` counts Cached(None), `missed` is the slot of the first one. */
  datatype Reader = Reader(key: Pubkey, ancestors: set<Slot>, fixed: bool, locked: bool,
                           misses: nat, missed: Slot, phase: ReaderPhase) {
    predicate Active() { !phase.Loaded? && !phase.Missing? && !phase.Panicked? }
  }

  type Index = map<(Pubkey, Slot), StorageLocation>

  datatype State = State(
    index: Index,
    roots: set<Slot>,                               // alive roots
    everRooted: set<Slot>,                          // roots including those whose slot died
    unflushed: set<Slot>,                           // roots not handed to a flush yet
    cache: map<Slot, map<Pubkey, Account>>,
    storageMap: map<Slot, StorageId>,
    shrinkMap: map<Slot, StorageId>,
    storages: map<StorageId, Storage>,              // every storage ever created
    counts: map<StorageId, int>,                    // alive accounts of each storage
    nextId: StorageId,
    reclaims: set<(Pubkey, Slot)>,                  // out of the index, not yet out of the counts
    dead: set<Slot>,                                // count reached zero, storage not yet removed
    background: Background,
    storing: map<nat, (Pubkey, Slot)>,              // foreground stores between cache and index
    readers: map<nat, Reader>,
    history: map<Slot, map<Pubkey, Account>>        // what was last stored in each slot
  )

  const EMPTY := State(map[], {}, {}, {}, map[], map[], map[], map[], map[], 0, {}, {}, Idle, map[], map[], map[])

  datatype Step =
    | StoreCache(thread: nat, slot: Slot, key: Pubkey, account: Account)
    | StoreIndex(thread: nat)
    | AddRoot(slot: Slot)
    | BeginFlush(upTo: Slot, clean: Option<Slot>, mark: bool)
    | FlushSkip(slot: Slot)
    | FlushSlot(slot: Slot)
    | FlushPurgeKey(key: Pubkey)
    | FlushDead
    | FlushWrite
    | FlushIndexKey(key: Pubkey)
    | FlushIndexed
    | FlushDrop
    | EndFlush
    | ReclaimSkip(slot: Slot)
    | ReclaimSlot(slot: Slot)
    | KillRoot(slot: Slot)
    | RemoveStorage(slot: Slot)
    | FlushReclaimed
    | CleanReclaimed
    | BeginClean
    | CleanKey(key: Pubkey, slots: set<Slot>)
    | CleanReclaims
    | EndClean
    | BeginPurge(slot: Slot)
    | PurgeKey(key: Pubkey)
    | EndPurge
    | BeginShrink
    | ShrinkSlot(slot: Slot, zero: set<Pubkey>)
    | ShrinkIndexKey(slot: Slot, key: Pubkey)
    | ShrinkZeroKey(slot: Slot, key: Pubkey)
    | ShrinkSwap(slot: Slot)
    | ShrinkEnd(slot: Slot)
    | EndShrink
    | BeginLoad(reader: nat, key: Pubkey, ancestors: set<Slot>, fixed: bool)
    | ReadNothing(reader: nat)
    | ReadEntry(reader: nat, slot: Slot, lock: bool)
    | Lookup(reader: nat)
    | EndLoad(reader: nat)

  // ---------------------------------------------------------------- helpers

  /** Keys whose index entry at `slot` points into storage `id`. */
  function Refs(index: Index, slot: Slot, id: StorageId): (keys: set<Pubkey>)
    ensures forall k :: k in keys <==> (k, slot) in index && index[(k, slot)] == AppendVec(id)
  {
    var entries := set p | p in index && p.1 == slot && index[p] == AppendVec(id);
    assert forall k :: (k, slot) in entries ==> (k, slot).0 in set p | p in entries :: p.0;
    set p | p in entries :: p.0
  }

  function Without(pairs: set<(Pubkey, Slot)>, slot: Slot): set<(Pubkey, Slot)> {
    set p | p in pairs && p.1 != slot
  }

  /** Nobody holds the lock of this key's index entry. */
  predicate Unlocked(readers: map<nat, Reader>, key: Pubkey) {
    forall r | r in readers :: readers[r].locked ==> readers[r].key != key
  }

  predicate Visible(roots: set<Slot>, ancestors: set<Slot>, slot: Slot) {
    slot in ancestors || slot in roots
  }

  /** `AccountsIndex::latest_slot` with no root bound. */
  predicate IsLatest(index: Index, roots: set<Slot>, key: Pubkey, ancestors: set<Slot>, slot: Slot) {
    && (key, slot) in index
    && Visible(roots, ancestors, slot)
    && forall p | p in index :: p.0 == key && Visible(roots, ancestors, p.1) ==> p.1 <= slot
  }

  predicate NothingVisible(index: Index, roots: set<Slot>, key: Pubkey, ancestors: set<Slot>) {
    forall p | p in index :: p.0 == key ==> !Visible(roots, ancestors, p.1)
  }

  predicate InMap(m: map<Slot, StorageId>, slot: Slot, id: StorageId) {
    slot in m && m[slot] == id
  }

  function AccountsOf(storages: map<StorageId, Storage>, id: StorageId): map<Pubkey, Account> {
    if id in storages then storages[id].accounts else map[]
  }

  predicate NoStoreInFlight(storing: map<nat, (Pubkey, Slot)>, slot: Slot) {
    forall t | t in storing :: storing[t].1 != slot
  }

  /** Does the flush in progress clean slot `slot`? */
  predicate Cleans(b: Background, slot: Slot) requires b.Flushing? {
    b.clean.Some? && slot <= b.clean.value
  }

  predicate Reclaiming(b: Background) {
    || (b.Flushing? && b.phase.FlushReclaim?)
    || (b.Cleaning? && b.reclaiming)
  }

  function DropKey(index: Index, key: Pubkey, slots: set<Slot>): Index {
    map p | p in index && !(p.0 == key && p.1 in slots) :: index[p]
  }

  /** Stored versions of `key` older than `slot`, which ReclaimOldSlots takes out of the index. */
  function OldStored(index: Index, key: Pubkey, slot: Slot): (slots: set<Slot>)
    ensures forall x :: x in slots <==> x < slot && (key, x) in index && index[(key, x)].AppendVec?
  {
    assert forall x :: x < slot && (key, x) in index && index[(key, x)].AppendVec? ==>
      (key, x).1 in set p | p in index && p.0 == key && p.1 < slot && index[p].AppendVec? :: p.1;
    set p | p in index && p.0 == key && p.1 < slot && index[p].AppendVec? :: p.1
  }

  function Pairs(key: Pubkey, slots: set<Slot>): (pairs: set<(Pubkey, Slot)>)
    ensures forall p :: p in pairs <==> p.0 == key && p.1 in slots
  {
    set x | x in slots :: (key, x)
  }

  // ---------------------------------------------------------------- steps

  /** The reader's phase after reading `location` at `slot` from the index. */
  function AfterIndex(prev: Option<(Slot, StorageLocation)>, slot: Slot, location: StorageLocation): ReaderPhase {
    if location.AppendVec? && prev == Some((slot, location)) then Panicked
    else if location.Cached? then LookupCache(slot)
    else LookupMap(slot, location.id)
  }

  /** The storage was found: its account must be readable. */
  function ReadStored(s: State, key: Pubkey, slot: Slot, id: StorageId): ReaderPhase {
    if key in AccountsOf(s.storages, id) then Loaded(slot, AccountsOf(s.storages, id)[key]) else Panicked
  }

  /** The lookup of the write cache or of one storage map. A reader that holds the entry's lock must find
      the account; one that does not retries from the index. */
  function AfterLookup(s: State, r: Reader): Reader {
    match r.phase
    case LookupCache(slot) =>
      if slot in s.cache && r.key in s.cache[slot] then
        r.(phase := Loaded(slot, s.cache[slot][r.key]), locked := false)
      else if r.locked then r.(phase := Panicked, locked := false)
      else r.(phase := ReadIndex(Some((slot, Cached))), misses := r.misses + 1,
              missed := if r.misses == 0 then slot else r.missed)
    case LookupMap(slot, id) =>
      if InMap(s.storageMap, slot, id) then r.(phase := ReadStored(s, r.key, slot, id), locked := false)
      else r.(phase := LookupShrinkMap(slot, id))
    case LookupShrinkMap(slot, id) =>
      if InMap(s.shrinkMap, slot, id) then r.(phase := ReadStored(s, r.key, slot, id), locked := false)
      else r.(phase := LookupMapAgain(slot, id))
    case LookupMapAgain(slot, id) =>
      if InMap(s.storageMap, slot, id) then r.(phase := ReadStored(s, r.key, slot, id), locked := false)
      else if r.locked then r.(phase := Panicked, locked := false)
      else r.(phase := ReadIndex(Some((slot, AppendVec(id)))))
    case _ => r
  }

  predicate CanStoreCache(s: State, t: nat, slot: Slot, key: Pubkey, a: Account) {
    var b := s.background;
    t !in s.storing && slot !in s.everRooted && !(b.Purging? && b.purged == slot)
  }

  function DoStoreCache(s: State, t: nat, slot: Slot, key: Pubkey, a: Account): State
    requires CanStoreCache(s, t, slot, key, a)
  {
    var entries := CacheOf(s.cache, slot)[key := a];
    s.(cache := s.cache[slot := entries], history := s.history[slot := entries], storing := s.storing[t := (key, slot)])
  }

  predicate CanStoreIndex(s: State, t: nat) {
    t in s.storing && Unlocked(s.readers, s.storing[t].0)
  }

  function DoStoreIndex(s: State, t: nat): State
    requires CanStoreIndex(s, t)
  {
    s.(index := s.index[s.storing[t] := Cached], storing := s.storing - {t})
  }

  predicate CanAddRoot(s: State, slot: Slot) {
    var b := s.background;
    && (forall r | r in s.everRooted :: r < slot)
    && NoStoreInFlight(s.storing, slot)
    && !(b.Purging? && b.purged == slot)
    && (forall r | r in s.readers :: s.readers[r].Active() ==> !s.readers[r].fixed)
  }

  function DoAddRoot(s: State, slot: Slot): State
    requires CanAddRoot(s, slot)
  {
    s.(roots := s.roots + {slot}, everRooted := s.everRooted + {slot}, unflushed := s.unflushed + {slot})
  }

  predicate CanBeginFlush(s: State, upTo: Slot, clean: Option<Slot>, mark: bool) {
    s.background.Idle?
  }

  function DoBeginFlush(s: State, upTo: Slot, clean: Option<Slot>, mark: bool): State
    requires CanBeginFlush(s, upTo, clean, mark)
  {
    var todo := set x | x in s.unflushed && x <= upTo;
    s.(unflushed := s.unflushed - todo, background := Flushing(todo, {}, clean, mark, map[], NextSlot))
  }

  /** The highest slot left is the next to flush. */
  predicate IsNextSlot(b: Background, slot: Slot) {
    b.Flushing? && b.phase.NextSlot? && slot in b.todo && forall x | x in b.todo :: x <= slot
  }

  /** A slot that is not in the cache has nothing to flush. */
  predicate CanFlushSkip(s: State, slot: Slot) {
    IsNextSlot(s.background, slot) && slot !in s.cache
  }

  function DoFlushSkip(s: State, slot: Slot): State
    requires CanFlushSkip(s, slot)
  {
    var b := s.background;
    s.(background := b.(todo := b.todo - {slot}, flushed := b.flushed + {slot}))
  }

  predicate CanFlushSlot(s: State, slot: Slot) {
    IsNextSlot(s.background, slot) && slot in s.cache
  }

  function DoFlushSlot(s: State, slot: Slot): State
    requires CanFlushSlot(s, slot)
  {
    var b := s.background;
    var keys := s.cache[slot].Keys;
    var purge := if Cleans(b, slot) then keys * b.written.Keys else {};
    s.(background := Flushing(b.todo - {slot}, b.flushed + {slot}, b.clean, b.mark, b.written,
      PurgeKeys(slot, purge, keys - purge)))
  }

  predicate CanFlushPurgeKey(s: State, key: Pubkey) {
    var b := s.background;
    b.Flushing? && b.phase.PurgeKeys? && key in b.phase.purge && Unlocked(s.readers, key)
  }

  function DoFlushPurgeKey(s: State, key: Pubkey): State
    requires CanFlushPurgeKey(s, key)
  {
    var b := s.background;
    s.(index := DropKey(s.index, key, {b.phase.slot}),
       background := b.(phase := b.phase.(purge := b.phase.purge - {key})))
  }

  /** Nothing is left to write: the slot is dead and its root goes. */
  predicate CanFlushDead(s: State) {
    var b := s.background;
    b.Flushing? && b.phase.PurgeKeys? && b.phase.purge == {} && b.phase.write == {}
  }

  function DoFlushDead(s: State): State
    requires CanFlushDead(s)
  {
    var b := s.background;
    s.(roots := s.roots - {b.phase.slot}, background := b.(phase := DropCache(b.phase.slot, {})))
  }

  predicate CanFlushWrite(s: State) {
    var b := s.background;
    b.Flushing? && b.phase.PurgeKeys? && b.phase.purge == {} && b.phase.write != {}
  }

  function DoFlushWrite(s: State): State
    requires CanFlushWrite(s)
  {
    var b := s.background;
    var slot, write := b.phase.slot, b.phase.write;
    s.(storages := s.storages[s.nextId := Storage(slot, Restrict(CacheOf(s.cache, slot), write))],
       counts := s.counts[s.nextId := |write|],
       storageMap := s.storageMap[slot := s.nextId],
       background := b.(phase := IndexKeys(slot, s.nextId, write, write)),
       nextId := s.nextId + 1)
  }

  predicate CanFlushIndexKey(s: State, key: Pubkey) {
    var b := s.background;
    b.Flushing? && b.phase.IndexKeys? && key in b.phase.left && Unlocked(s.readers, key)
  }

  function DoFlushIndexKey(s: State, key: Pubkey): State
    requires CanFlushIndexKey(s, key)
  {
    var b := s.background;
    var slot := b.phase.slot;
    var outdated := if b.mark && Cleans(b, slot) then OldStored(s.index, key, slot) else {};
    s.(index := DropKey(s.index, key, outdated)[(key, slot) := AppendVec(b.phase.id)],
       reclaims := s.reclaims + Pairs(key, outdated),
       background := b.(phase := b.phase.(left := b.phase.left - {key})))
  }

  predicate CanFlushIndexed(s: State) {
    var b := s.background;
    b.Flushing? && b.phase.IndexKeys? && b.phase.left == {}
  }

  function DoFlushIndexed(s: State): State
    requires CanFlushIndexed(s)
  {
    var b := s.background;
    s.(background := b.(phase := FlushReclaim(b.phase.slot, b.phase.write)))
  }

  predicate CanFlushDrop(s: State) {
    var b := s.background;
    b.Flushing? && b.phase.DropCache?
  }

  function DoFlushDrop(s: State): State
    requires CanFlushDrop(s)
  {
    var b := s.background;
    var slot := b.phase.slot;
    var now := if Cleans(b, slot) then map k | k in b.phase.write :: slot else map[];
    s.(cache := s.cache - {slot}, background := b.(written := b.written + now, phase := NextSlot))
  }

  predicate CanEndFlush(s: State) {
    var b := s.background;
    b.Flushing? && b.phase.NextSlot? && b.todo == {}
  }

  function DoEndFlush(s: State): State
    requires CanEndFlush(s)
  {
    s.(background := Idle)
  }

  predicate Pending(reclaims: set<(Pubkey, Slot)>, slot: Slot) {
    exists p | p in reclaims :: p.1 == slot
  }

  function Died(dead: set<Slot>, slot: Slot, count: int): set<Slot> {
    if count == 0 then dead + {slot} else dead
  }

  /** A reclaim whose slot has no storage any more is skipped. */
  predicate CanReclaimSkip(s: State, slot: Slot) {
    Reclaiming(s.background) && Pending(s.reclaims, slot) && !Counts(s.storageMap, s.counts, slot)
  }

  function DoReclaimSkip(s: State, slot: Slot): State
    requires CanReclaimSkip(s, slot)
  {
    s.(reclaims := Without(s.reclaims, slot))
  }

  predicate Counts(storageMap: map<Slot, StorageId>, counts: map<StorageId, int>, slot: Slot) {
    slot in storageMap && storageMap[slot] in counts
  }

  predicate CanReclaimSlot(s: State, slot: Slot) {
    Reclaiming(s.background) && Pending(s.reclaims, slot) && Counts(s.storageMap, s.counts, slot)
  }

  function DoReclaimSlot(s: State, slot: Slot): State
    requires CanReclaimSlot(s, slot)
  {
    var id := s.storageMap[slot];
    var count := s.counts[id] - |KeysAt(s.reclaims, slot)|;
    s.(counts := s.counts[id := count],
       reclaims := Without(s.reclaims, slot),
       dead := Died(s.dead, slot, count))
  }

  predicate CanKillRoot(s: State, slot: Slot) {
    var b := s.background;
    Reclaiming(b) && s.reclaims == {} && slot in s.dead
  }

  function DoKillRoot(s: State, slot: Slot): State
    requires CanKillRoot(s, slot)
  {
    s.(roots := s.roots - {slot})
  }

  predicate CanRemoveStorage(s: State, slot: Slot) {
    var b := s.background;
    Reclaiming(b) && s.reclaims == {} && slot in s.dead && slot !in s.roots
  }

  function DoRemoveStorage(s: State, slot: Slot): State
    requires CanRemoveStorage(s, slot)
  {
    s.(storageMap := s.storageMap - {slot}, dead := s.dead - {slot})
  }

  predicate CanFlushReclaimed(s: State) {
    var b := s.background;
    b.Flushing? && b.phase.FlushReclaim? && s.reclaims == {} && s.dead == {}
  }

  function DoFlushReclaimed(s: State): State
    requires CanFlushReclaimed(s)
  {
    var b := s.background;
    s.(background := b.(phase := DropCache(b.phase.slot, b.phase.write)))
  }

  predicate CanCleanReclaimed(s: State) {
    s.background == Cleaning(true) && s.reclaims == {} && s.dead == {}
  }

  function DoCleanReclaimed(s: State): State
    requires CanCleanReclaimed(s)
  {
    s.(background := Cleaning(false))
  }

  predicate CanBeginClean(s: State) {
    s.background.Idle?
  }

  function DoBeginClean(s: State): State
    requires CanBeginClean(s)
  {
    s.(background := Cleaning(false))
  }

  predicate CanCleanKey(s: State, key: Pubkey, slots: set<Slot>) {
    var b := s.background;
    && b.Cleaning? && !b.reclaiming && Unlocked(s.readers, key)
    && forall x | x in slots :: (key, x) in s.index && s.index[(key, x)].AppendVec?
  }

  function DoCleanKey(s: State, key: Pubkey, slots: set<Slot>): State
    requires CanCleanKey(s, key, slots)
  {
    s.(index := DropKey(s.index, key, slots), reclaims := s.reclaims + Pairs(key, slots))
  }

  predicate CanCleanReclaims(s: State) {
    var b := s.background;
    b.Cleaning? && !b.reclaiming
  }

  function DoCleanReclaims(s: State): State
    requires CanCleanReclaims(s)
  {
    s.(background := Cleaning(true))
  }

  predicate CanEndClean(s: State) {
    var b := s.background;
    b.Cleaning? && !b.reclaiming && s.reclaims == {}
  }

  function DoEndClean(s: State): State
    requires CanEndClean(s)
  {
    s.(background := Idle)
  }

  predicate CanBeginPurge(s: State, slot: Slot) {
    var b := s.background;
    && b.Idle? && slot !in s.everRooted && slot in s.cache
    && NoStoreInFlight(s.storing, slot)
    && forall r | r in s.readers :: s.readers[r].Active() && s.readers[r].fixed ==> slot !in s.readers[r].ancestors
  }

  function DoBeginPurge(s: State, slot: Slot): State
    requires CanBeginPurge(s, slot)
  {
    s.(background := Purging(slot, s.cache[slot].Keys))
  }

  predicate CanPurgeKey(s: State, key: Pubkey) {
    var b := s.background;
    b.Purging? && key in b.keys && Unlocked(s.readers, key)
  }

  function DoPurgeKey(s: State, key: Pubkey): State
    requires CanPurgeKey(s, key)
  {
    var b := s.background;
    s.(index := DropKey(s.index, key, {b.purged}), background := b.(keys := b.keys - {key}))
  }

  predicate CanEndPurge(s: State) {
    var b := s.background;
    b.Purging? && b.keys == {}
  }

  function DoEndPurge(s: State): State
    requires CanEndPurge(s)
  {
    var b := s.background;
    s.(cache := s.cache - {b.purged}, history := s.history - {b.purged}, background := Idle)
  }

  predicate CanBeginShrink(s: State) {
    s.background.Idle?
  }

  function DoBeginShrink(s: State): State
    requires CanBeginShrink(s)
  {
    s.(background := Shrinking(map[]))
  }

  predicate CanShrinkSlot(s: State, slot: Slot, zero: set<Pubkey>) {
    var b := s.background;
    && b.Shrinking? && slot !in b.slots && slot !in s.cache && slot !in s.shrinkMap
    && slot in s.storageMap
    && zero < Refs(s.index, slot, s.storageMap[slot])
  }

  function DoShrinkSlot(s: State, slot: Slot, zero: set<Pubkey>): State
    requires CanShrinkSlot(s, slot, zero)
  {
    var b := s.background;
    var alive := Refs(s.index, slot, s.storageMap[slot]) - zero;
    s.(storages := s.storages[s.nextId := Storage(slot, Restrict(AccountsOf(s.storages, s.storageMap[slot]), alive))],
       counts := s.counts[s.nextId := |alive|],
       shrinkMap := s.shrinkMap[slot := s.nextId],
       background := b.(slots := b.slots[slot := ShrinkIndex(s.nextId, alive, zero)]),
       nextId := s.nextId + 1)
  }

  predicate CanShrinkIndexKey(s: State, slot: Slot, key: Pubkey) {
    var b := s.background;
    && b.Shrinking? && slot in b.slots && b.slots[slot].ShrinkIndex? && key in b.slots[slot].left
    && Unlocked(s.readers, key)
  }

  function DoShrinkIndexKey(s: State, slot: Slot, key: Pubkey): State
    requires CanShrinkIndexKey(s, slot, key)
  {
    var b := s.background;
    var phase := b.slots[slot];
    s.(index := s.index[(key, slot) := AppendVec(phase.id)],
       background := b.(slots := b.slots[slot := phase.(left := phase.left - {key})]))
  }

  predicate CanShrinkZeroKey(s: State, slot: Slot, key: Pubkey) {
    var b := s.background;
    && b.Shrinking? && slot in b.slots && b.slots[slot].ShrinkIndex?
    && b.slots[slot].left == {} && key in b.slots[slot].zero && Unlocked(s.readers, key)
  }

  function DoShrinkZeroKey(s: State, slot: Slot, key: Pubkey): State
    requires CanShrinkZeroKey(s, slot, key)
  {
    var b := s.background;
    var phase := b.slots[slot];
    s.(index := DropKey(s.index, key, {slot}),
       background := b.(slots := b.slots[slot := phase.(zero := phase.zero - {key})]))
  }

  predicate CanShrinkSwap(s: State, slot: Slot) {
    var b := s.background;
    && b.Shrinking? && slot in b.slots && b.slots[slot].ShrinkIndex?
    && b.slots[slot].left == {} && b.slots[slot].zero == {}
  }

  function DoShrinkSwap(s: State, slot: Slot): State
    requires CanShrinkSwap(s, slot)
  {
    var b := s.background;
    s.(storageMap := s.storageMap[slot := b.slots[slot].id],
       background := b.(slots := b.slots[slot := ShrinkDrop(b.slots[slot].id)]))
  }

  predicate CanShrinkEnd(s: State, slot: Slot) {
    var b := s.background;
    b.Shrinking? && slot in b.slots && b.slots[slot].ShrinkDrop?
  }

  function DoShrinkEnd(s: State, slot: Slot): State
    requires CanShrinkEnd(s, slot)
  {
    var b := s.background;
    s.(shrinkMap := s.shrinkMap - {slot}, background := b.(slots := b.slots - {slot}))
  }

  predicate CanEndShrink(s: State) {
    var b := s.background;
    b.Shrinking? && b.slots == map[]
  }

  function DoEndShrink(s: State): State
    requires CanEndShrink(s)
  {
    s.(background := Idle)
  }

  predicate CanBeginLoad(s: State, r: nat, key: Pubkey, ancestors: set<Slot>, fixed: bool) {
    var b := s.background;
    r !in s.readers && (fixed && b.Purging? ==> b.purged !in ancestors)
  }

  function DoBeginLoad(s: State, r: nat, key: Pubkey, ancestors: set<Slot>, fixed: bool): State
    requires CanBeginLoad(s, r, key, ancestors, fixed)
  {
    s.(readers := s.readers[r := Reader(key, ancestors, fixed, false, 0, 0, ReadIndex(None))])
  }

  predicate CanReadNothing(s: State, r: nat) {
    && r in s.readers && s.readers[r].phase.ReadIndex?
    && NothingVisible(s.index, s.roots, s.readers[r].key, s.readers[r].ancestors)
  }

  function DoReadNothing(s: State, r: nat): State
    requires CanReadNothing(s, r)
  {
    s.(readers := s.readers[r := s.readers[r].(phase := Missing)])
  }

  predicate CanReadEntry(s: State, r: nat, slot: Slot, lock: bool) {
    && r in s.readers && s.readers[r].phase.ReadIndex?
    && IsLatest(s.index, s.roots, s.readers[r].key, s.readers[r].ancestors, slot)
    && (lock ==> s.readers[r].phase.prev.Some?)
  }

  function DoReadEntry(s: State, r: nat, slot: Slot, lock: bool): State
    requires CanReadEntry(s, r, slot, lock)
  {
    var reader := s.readers[r];
    var location := s.index[(reader.key, slot)];
    var again := location.Cached? && reader.phase.prev == Some((slot, Cached));
    var phase := AfterIndex(reader.phase.prev, slot, location);
    s.(readers := s.readers[r := reader.(phase := phase, locked := lock && !again && !phase.Panicked?)])
  }

  predicate CanLookup(s: State, r: nat) {
    r in s.readers && s.readers[r].Active() && !s.readers[r].phase.ReadIndex?
  }

  function DoLookup(s: State, r: nat): State
    requires CanLookup(s, r)
  {
    s.(readers := s.readers[r := AfterLookup(s, s.readers[r])])
  }

  predicate CanEndLoad(s: State, r: nat) {
    r in s.readers && !s.readers[r].Active()
  }

  function DoEndLoad(s: State, r: nat): State
    requires CanEndLoad(s, r)
  {
    s.(readers := s.readers - {r})
  }

  /** A foreground store, or a new root. */
  ghost predicate StoreNext(s: State, step: Step, s': State) {
    match step
    case StoreCache(t, slot, key, a) => CanStoreCache(s, t, slot, key, a) && s' == DoStoreCache(s, t, slot, key, a)
    case StoreIndex(t) => CanStoreIndex(s, t) && s' == DoStoreIndex(s, t)
    case AddRoot(slot) => CanAddRoot(s, slot) && s' == DoAddRoot(s, slot)
    case _ => false
  }

  /** A flush takes its slots one by one, highest first. */
  ghost predicate FlushBatchNext(s: State, step: Step, s': State) {
    match step
    case BeginFlush(upTo, clean, mark) => CanBeginFlush(s, upTo, clean, mark) &&
      s' == DoBeginFlush(s, upTo, clean, mark)
    case FlushSkip(slot) => CanFlushSkip(s, slot) && s' == DoFlushSkip(s, slot)
    case FlushSlot(slot) => CanFlushSlot(s, slot) && s' == DoFlushSlot(s, slot)
    case EndFlush => CanEndFlush(s) && s' == DoEndFlush(s)
    case _ => false
  }

  /** The flush of one slot. */
  ghost predicate FlushSlotNext(s: State, step: Step, s': State) {
    match step
    case FlushPurgeKey(key) => CanFlushPurgeKey(s, key) && s' == DoFlushPurgeKey(s, key)
    case FlushDead => CanFlushDead(s) && s' == DoFlushDead(s)
    case FlushWrite => CanFlushWrite(s) && s' == DoFlushWrite(s)
    case FlushIndexKey(key) => CanFlushIndexKey(s, key) && s' == DoFlushIndexKey(s, key)
    case FlushIndexed => CanFlushIndexed(s) && s' == DoFlushIndexed(s)
    case FlushReclaimed => CanFlushReclaimed(s) && s' == DoFlushReclaimed(s)
    case FlushDrop => CanFlushDrop(s) && s' == DoFlushDrop(s)
    case _ => false
  }

  /** Counting down what left the index, and removing the storages that reach zero. */
  ghost predicate ReclaimNext(s: State, step: Step, s': State) {
    match step
    case ReclaimSkip(slot) => CanReclaimSkip(s, slot) && s' == DoReclaimSkip(s, slot)
    case ReclaimSlot(slot) => CanReclaimSlot(s, slot) && s' == DoReclaimSlot(s, slot)
    case KillRoot(slot) => CanKillRoot(s, slot) && s' == DoKillRoot(s, slot)
    case RemoveStorage(slot) => CanRemoveStorage(s, slot) && s' == DoRemoveStorage(s, slot)
    case _ => false
  }

  ghost predicate CleanNext(s: State, step: Step, s': State) {
    match step
    case BeginClean => CanBeginClean(s) && s' == DoBeginClean(s)
    case CleanKey(key, slots) => CanCleanKey(s, key, slots) && s' == DoCleanKey(s, key, slots)
    case CleanReclaims => CanCleanReclaims(s) && s' == DoCleanReclaims(s)
    case CleanReclaimed => CanCleanReclaimed(s) && s' == DoCleanReclaimed(s)
    case EndClean => CanEndClean(s) && s' == DoEndClean(s)
    case _ => false
  }

  /** Purging an unrooted slot. */
  ghost predicate PurgeNext(s: State, step: Step, s': State) {
    match step
    case BeginPurge(slot) => CanBeginPurge(s, slot) && s' == DoBeginPurge(s, slot)
    case PurgeKey(key) => CanPurgeKey(s, key) && s' == DoPurgeKey(s, key)
    case EndPurge => CanEndPurge(s) && s' == DoEndPurge(s)
    case _ => false
  }

  /** Shrinking slots in parallel, up to the swap of the storages. */
  ghost predicate ShrinkSlotNext(s: State, step: Step, s': State) {
    match step
    case BeginShrink => CanBeginShrink(s) && s' == DoBeginShrink(s)
    case ShrinkSlot(slot, zero) => CanShrinkSlot(s, slot, zero) && s' == DoShrinkSlot(s, slot, zero)
    case ShrinkIndexKey(slot, key) => CanShrinkIndexKey(s, slot, key) && s' == DoShrinkIndexKey(s, slot, key)
    case ShrinkZeroKey(slot, key) => CanShrinkZeroKey(s, slot, key) && s' == DoShrinkZeroKey(s, slot, key)
    case _ => false
  }

  ghost predicate ShrinkSwapNext(s: State, step: Step, s': State) {
    match step
    case ShrinkSwap(slot) => CanShrinkSwap(s, slot) && s' == DoShrinkSwap(s, slot)
    case ShrinkEnd(slot) => CanShrinkEnd(s, slot) && s' == DoShrinkEnd(s, slot)
    case EndShrink => CanEndShrink(s) && s' == DoEndShrink(s)
    case _ => false
  }

  /** A reader's step. */
  ghost predicate LoadNext(s: State, step: Step, s': State) {
    match step
    case BeginLoad(r, key, ancestors, fixed) => CanBeginLoad(s, r, key, ancestors, fixed) &&
      s' == DoBeginLoad(s, r, key, ancestors, fixed)
    case ReadNothing(r) => CanReadNothing(s, r) && s' == DoReadNothing(s, r)
    case ReadEntry(r, slot, lock) => CanReadEntry(s, r, slot, lock) && s' == DoReadEntry(s, r, slot, lock)
    case Lookup(r) => CanLookup(s, r) && s' == DoLookup(s, r)
    case EndLoad(r) => CanEndLoad(s, r) && s' == DoEndLoad(s, r)
    case _ => false
  }

  /** `step` leads from `s` to `s'`. */
  ghost predicate Next(s: State, step: Step, s': State) {
    || StoreNext(s, step, s')
    || FlushBatchNext(s, step, s')
    || FlushSlotNext(s, step, s')
    || ReclaimNext(s, step, s')
    || CleanNext(s, step, s')
    || PurgeNext(s, step, s')
    || ShrinkSlotNext(s, step, s')
    || ShrinkSwapNext(s, step, s')
    || LoadNext(s, step, s')
  }

  /** A run from the empty database. */
  ghost predicate IsRun(states: seq<State>, steps: seq<Step>) {
    && |states| == |steps| + 1
    && states[0] == EMPTY
    && forall i :: 0 <= i < |steps| ==> Next(states[i], steps[i], states[i + 1])
  }
}
