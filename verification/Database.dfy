/**
 The accounts database between background operations: what storing, rooting, flushing, cleaning, purging and
 shrinking do to the index, the reference counts, the write cache and the storages.
 */
module Database {
  import opened Types

  datatype Location = Cached | Stored

  /** A slot's storage: the last record of each key, and the keys whose record is marked obsolete. */
  datatype Store = Store(accounts: map<Pubkey, Account>, obsolete: set<Pubkey>)

  type Pair = (Pubkey, Slot)
  type Index = map<Pair, Location>
  type Refs = map<Pubkey, int>
  type Cache = map<Slot, map<Pubkey, Account>>
  type Stores = map<Slot, Store>

  datatype Db = Db(
    index: Index,
    refs: Refs,           // the index entries' reference counts
    roots: set<Slot>,     // alive roots
    cache: Cache,
    stores: Stores,
    ever: set<Slot>,      // every slot that was ever rooted
    history: Cache,       // what was last stored in each slot
    cleaned: Slot         // the highest root that flush or clean has dropped older versions for
  )

  const EMPTY := Db(map[], map[], {}, map[], map[], {}, map[], 0)

  // ---------------------------------------------------------------- helpers

  function Max(a: Slot, b: Slot): Slot {
    if a < b then b else a
  }

  function Ref(refs: Refs, k: Pubkey): int {
    if k in refs then refs[k] else 0
  }

  /** Does the storage of slot `x` hold a record of `k` that is not obsolete? */
  predicate HoldsKey(stores: Stores, x: Slot, k: Pubkey) {
    x in stores && k in stores[x].accounts && k !in stores[x].obsolete
  }

  function Holders(stores: Stores, k: Pubkey): set<Slot> {
    set x | x in stores && HoldsKey(stores, x, k)
  }

  function SlotsOf(pairs: set<Pair>, k: Pubkey): (slots: set<Slot>)
    ensures forall x :: x in slots <==> (k, x) in pairs
  {
    assert forall x :: (k, x) in pairs ==> (k, x).1 in set p | p in pairs && p.0 == k :: p.1;
    set p | p in pairs && p.0 == k :: p.1
  }

  /** Slots whose last index entry was among `gone`. */
  function Emptied(index: Index, stores: Stores, gone: set<Pair>): set<Slot> {
    set x | x in stores && KeysAt(gone, x) != {} && forall p | p in index :: p.1 != x
  }

  // ---------------------------------------------------------------- foreground operations

  predicate CanStore(db: Db, slot: Slot) { slot !in db.ever }

  /** A batch with no accounts stores nothing. */
  function StoreAccounts(db: Db, slot: Slot, accounts: map<Pubkey, Account>): Db {
    if accounts == map[] then db
    else
      var entries := CacheOf(db.cache, slot) + accounts;
      db.(cache := db.cache[slot := entries], history := db.history[slot := entries],
          index := db.index + (map p | p in Pairs(accounts.Keys, slot) :: Location.Cached))
  }

  function Pairs(keys: set<Pubkey>, slot: Slot): (pairs: set<Pair>)
    ensures forall p :: p in pairs <==> p.0 in keys && p.1 == slot
  {
    set k | k in keys :: (k, slot)
  }

  predicate CanAddRoot(db: Db, slot: Slot) { forall r | r in db.ever :: r < slot }

  function AddRoot(db: Db, slot: Slot): Db {
    db.(roots := db.roots + {slot}, ever := db.ever + {slot})
  }

  predicate CanPurgeSlot(db: Db, slot: Slot) { slot !in db.ever }

  function PurgeSlot(db: Db, slot: Slot): Db {
    db.(cache := db.cache - {slot}, history := db.history - {slot},
        index := map p | p in db.index && p.1 != slot :: db.index[p])
  }

  // ---------------------------------------------------------------- flush

  /** Cached versions that are not written because the batch has written a newer one. */
  function Skipped(cache: Cache, slot: Slot, written: set<Pubkey>, clean: bool): set<Pubkey> {
    if clean then CacheOf(cache, slot).Keys * written else {}
  }

  /** Stored versions that the newly written ones make obsolete. */
  function Outdated(index: Index, slot: Slot, write: set<Pubkey>, reclaim: bool): (pairs: set<Pair>)
    ensures forall p :: p in pairs <==> reclaim && p in index && index[p].Stored? && p.0 in write && p.1 < slot
  {
    set p | p in index && reclaim && index[p].Stored? && p.0 in write && p.1 < slot
  }

  function FlushIndex(index: Index, slot: Slot, skip: set<Pubkey>, write: set<Pubkey>, outdated: set<Pair>): Index {
    map p | p in index && !(p.1 == slot && p.0 in skip) && p !in outdated ::
      if p.1 == slot && p.0 in write then Stored else index[p]
  }

  function FlushRefs(refs: Refs, write: set<Pubkey>, outdated: set<Pair>): Refs {
    map k | k in refs.Keys + write :: if k in write then Ref(refs, k) + 1 - |SlotsOf(outdated, k)| else Ref(refs, k)
  }

  function MarkObsolete(stores: Stores, outdated: set<Pair>, dead: set<Slot>): Stores {
    map x | x in stores && x !in dead :: Store(stores[x].accounts, stores[x].obsolete + KeysAt(outdated, x))
  }

  /** Cached versions that are written. */
  function Writes(cache: Cache, slot: Slot, written: set<Pubkey>, clean: bool): set<Pubkey> {
    CacheOf(cache, slot).Keys - Skipped(cache, slot, written, clean)
  }

  /** The entries a flush reclaims, if it uses the ReclaimOldSlots upsert. */
  function FlushReclaims(db: Db, slot: Slot, written: set<Pubkey>, clean: bool, mark: bool): set<Pair> {
    Outdated(db.index, slot, Writes(db.cache, slot, written, clean), clean && mark)
  }

  function FlushedIndex(db: Db, slot: Slot, written: set<Pubkey>, clean: bool, mark: bool): Index {
    FlushIndex(db.index, slot, Skipped(db.cache, slot, written, clean), Writes(db.cache, slot, written, clean),
               FlushReclaims(db, slot, written, clean, mark))
  }

  /** The storages a flush leaves without entries. */
  function FlushKills(db: Db, slot: Slot, written: set<Pubkey>, clean: bool, mark: bool): set<Slot> {
    Emptied(FlushedIndex(db, slot, written, clean, mark), db.stores, FlushReclaims(db, slot, written, clean, mark))
  }

  /** Flush one rooted slot. What it reclaims is marked obsolete in the storages that stay. */
  function FlushSlot(db: Db, slot: Slot, written: set<Pubkey>, clean: bool, mark: bool): Db {
    var write := Writes(db.cache, slot, written, clean);
    var outdated := FlushReclaims(db, slot, written, clean, mark);
    var dead := FlushKills(db, slot, written, clean, mark);
    var kept := MarkObsolete(db.stores, outdated, dead);
    db.(index := FlushedIndex(db, slot, written, clean, mark),
        refs := FlushRefs(db.refs, write, outdated),
        roots := db.roots - dead - (if write == {} then {slot} else {}),
        stores := if write == {} then kept else kept[slot := Store(Restrict(CacheOf(db.cache, slot), write), {})],
        cache := db.cache - {slot},
        cleaned := if clean then Max(db.cleaned, slot) else db.cleaned)
  }

  predicate Cleans(clean: Option<Slot>, slot: Slot) {
    clean.Some? && slot <= clean.value
  }

  /** What the batch has written after flushing `slot`. */
  function NowWritten(cache: Cache, slot: Slot, written: set<Pubkey>, clean: bool): set<Pubkey> {
    if clean then written + CacheOf(cache, slot).Keys else written
  }

  /** Flush the slots in this order. */
  function FlushSlots(db: Db, slots: seq<Slot>, written: set<Pubkey>, clean: Option<Slot>, mark: bool): Db
    decreases slots
  {
    if slots == [] then db
    else
      var cleans := Cleans(clean, slots[0]);
      FlushSlots(FlushSlot(db, slots[0], written, cleans, mark), slots[1..],
                 NowWritten(db.cache, slots[0], written, cleans), clean, mark)
  }

  /** The slots of a batch: every cached root up to a bound, highest first. */
  predicate IsBatch(db: Db, slots: seq<Slot>, upTo: Slot) {
    && (forall i, j :: 0 <= i < j < |slots| ==> slots[i] > slots[j])
    && (forall x | x in slots :: x in db.cache && x in db.ever && x <= upTo)
    && (forall x | x in db.cache && x in db.ever && x <= upTo :: x in slots)
  }

  // ---------------------------------------------------------------- clean

  /** The newest rooted version up to the clean root. */
  predicate IsNewestRooted(index: Index, roots: set<Slot>, p: Pair, bound: Slot) {
    p in index && p.1 in roots && p.1 <= bound &&
    forall q | q in index && q.0 == p.0 && q.1 in roots && q.1 <= bound :: q.1 <= p.1
  }

  /** Stored versions of the keys that are older than the newest rooted one. */
  function Older(index: Index, roots: set<Slot>, keys: set<Pubkey>, bound: Slot): (pairs: set<Pair>)
    ensures forall p :: p in pairs <==>
      p in index && index[p].Stored? && p.0 in keys && p.1 < bound && !IsNewestRooted(index, roots, p, bound)
  {
    set p | p in index && index[p].Stored? && p.0 in keys && p.1 < bound && !IsNewestRooted(index, roots, p, bound)
  }

  /** Each key loses one reference per removed storage that holds it, unless it is gone from the index. */
  function Unref(refs: Refs, stores: Stores, dead: set<Slot>, removed: set<Pubkey>): Refs {
    map k | k in refs && k !in removed :: refs[k] - |Holders(stores, k) * dead|
  }

  /** Entries leave the index; storages left without entries are removed with their roots. */
  function Reclaim(db: Db, gone: set<Pair>, removed: set<Pubkey>): Db {
    var index := map p | p in db.index && p !in gone :: db.index[p];
    var dead := Emptied(index, db.stores, gone);
    db.(index := index, refs := Unref(db.refs, db.stores, dead, removed),
        roots := db.roots - dead, stores := db.stores - dead)
  }

  function CleanOlder(db: Db, keys: set<Pubkey>, bound: Slot): Db {
    Reclaim(db, Older(db.index, db.roots, keys, bound), {}).(cleaned := Max(db.cleaned, bound))
  }

  /** The rooted versions of the keys up to the clean root. */
  function RootedUpTo(index: Index, roots: set<Slot>, keys: set<Pubkey>, bound: Slot): (pairs: set<Pair>)
    ensures forall p :: p in pairs <==> p in index && p.0 in keys && p.1 in roots && p.1 <= bound
  {
    set p | p in index && p.0 in keys && p.1 in roots && p.1 <= bound
  }

  /** Keys of `keys` left with no index entry at all. */
  function Removed(index: Index, gone: set<Pair>, keys: set<Pubkey>): set<Pubkey> {
    set k | k in keys && forall p | p in index && p.0 == k :: p in gone
  }

  predicate IsZero(stores: Stores, p: Pair) {
    p.1 in stores && p.0 in stores[p.1].accounts && stores[p.1].accounts[p.0].IsZeroLamport()
  }

  /** Zero-lamport keys that can be purged together: see module CleanDependencies. */
  predicate CanPurgeZero(db: Db, keys: set<Pubkey>, bound: Slot) {
    var gone := RootedUpTo(db.index, db.roots, keys, bound);
    && (forall p | p in gone :: db.index[p].Stored? && |SlotsOf(gone, p.0)| == Ref(db.refs, p.0))
    && (forall p | p in gone && IsNewestRooted(db.index, db.roots, p, bound) :: IsZero(db.stores, p))
    && (forall p, q | p in gone && q in db.index && q.1 == p.1 :: q in gone)
  }

  function PurgeZero(db: Db, keys: set<Pubkey>, bound: Slot): Db {
    var gone := RootedUpTo(db.index, db.roots, keys, bound);
    Reclaim(db, gone, Removed(db.index, gone, keys)).(cleaned := Max(db.cleaned, bound))
  }

  // ---------------------------------------------------------------- shrink

  function AliveAt(index: Index, slot: Slot): (keys: set<Pubkey>)
    ensures forall k :: k in keys <==> (k, slot) in index && index[(k, slot)].Stored?
  {
    KeysAt((set p | p in index && index[p].Stored?), slot)
  }

  /** How many accounts of each storage are alive. */
  function AliveCounts(index: Index, stores: Stores): map<Slot, nat> {
    map x | x in stores :: AliveCount(index, x)
  }

  function AliveCount(index: Index, x: Slot): nat {
    |AliveAt(index, x)|
  }

  /** Alive zero-lamport keys with a single reference, which a shrink may drop. */
  predicate CanShrink(db: Db, slot: Slot, zero: set<Pubkey>) {
    && slot in db.stores && slot !in db.cache
    && forall k | k in zero :: k in AliveAt(db.index, slot) && IsZero(db.stores, (k, slot)) && Ref(db.refs, k) == 1
  }

  /** Records that the shrunk storage no longer holds. */
  function Dropped(store: Store, kept: set<Pubkey>): set<Pubkey> {
    store.accounts.Keys - store.obsolete - kept
  }

  function DropEntries(index: Index, slot: Slot, keys: set<Pubkey>): Index {
    map p | p in index && !(p.1 == slot && p.0 in keys) :: index[p]
  }

  function DropRefs(refs: Refs, keys: set<Pubkey>): Refs {
    map k | k in refs :: if k in keys then refs[k] - 1 else refs[k]
  }

  /** Rewrite the storage with its alive accounts only. A storage left with nothing is for clean to remove. */
  function Shrink(db: Db, slot: Slot, zero: set<Pubkey>): Db
    requires CanShrink(db, slot, zero)
  {
    var kept := AliveAt(db.index, slot) - zero;
    if kept == {} then db
    else
      var store := db.stores[slot];
      db.(index := DropEntries(db.index, slot, zero),
          refs := DropRefs(db.refs, Dropped(store, kept)),
          stores := db.stores[slot := Store(Restrict(store.accounts, kept), {})])
  }
}
