/**
 Concurrent loads against the history of writes. When clean and shrink drop what the source lets them drop, a load
 returns the newest visible write at a moment of the load, and it finds nothing only when there is no visible write or
 the newest is zero-lamport.
 */
module LoadHistory {
  import opened Types
  import opened LoadProtocol
  import opened LoadInvariant
  import opened LoadInvariantProof
  import opened LoadTheorems
  import Sets

  type Entries = set<(Pubkey, Slot)>

  // ---------------------------------------------------------------- what clean and shrink may drop

  /** The newest rooted version of the key up to the clean root. */
  ghost predicate IsNewestUpTo(index: Index, roots: set<Slot>, key: Pubkey, x: Slot, bound: Slot) {
    && (key, x) in index && x in roots && x <= bound
    && forall p | p in index && p.0 == key && p.1 in roots && p.1 <= bound :: p.1 <= x
  }

  /** Stored versions below the clean root other than the newest rooted one. */
  ghost predicate AreOutdated(index: Index, roots: set<Slot>, key: Pubkey, slots: set<Slot>, bound: Slot) {
    forall x | x in slots ::
      (key, x) in index && index[(key, x)].AppendVec? && x < bound && !IsNewestUpTo(index, roots, key, x, bound)
  }

  /** Every rooted version up to the clean root, the newest of which is zero-lamport. */
  ghost predicate ArePurged(index: Index, roots: set<Slot>, history: Cache, key: Pubkey, slots: set<Slot>,
                            bound: Slot) {
    && (forall x :: x in slots <==> (key, x) in index && x in roots && x <= bound)
    && (forall x | IsNewestUpTo(index, roots, key, x, bound) :: IsZeroWrite(history, key, x))
  }

  predicate IsZeroWrite(history: Cache, key: Pubkey, x: Slot) {
    x in history && key in history[x] && history[x][key].IsZeroLamport()
  }

  /** No storage but that of `slot` has an indexed version of the key: its reference count is one. */
  ghost predicate SingleStored(index: Index, key: Pubkey, slot: Slot) {
    forall p | p in index && p.0 == key && index[p].AppendVec? :: p.1 == slot
  }

  /** Clean drops outdated versions or purges a zero-lamport key, and shrink drops single zero-lamport records. */
  ghost predicate Proper(s: State, step: Step) {
    match step
    case CleanKey(key, slots) =>
      exists bound: Slot :: AreOutdated(s.index, s.roots, key, slots, bound) ||
        ArePurged(s.index, s.roots, s.history, key, slots, bound)
    case ShrinkSlot(slot, zero) =>
      forall k | k in zero :: IsZeroWrite(s.history, k, slot) && SingleStored(s.index, k, slot)
    case _ => true
  }

  ghost predicate IsProperRun(states: seq<State>, steps: seq<Step>) {
    IsRun(states, steps) && forall i :: 0 <= i < |steps| ==> Proper(states[i], steps[i])
  }

  // ---------------------------------------------------------------- the invariant

  ghost predicate IsNewestWrite(history: Cache, ever: set<Slot>, k: Pubkey, m: Slot) {
    && m in ever && m in history && k in history[m]
    && forall x | x in ever && x in history && k in history[x] :: x <= m
  }

  ghost predicate NoRootedEntry(entries: Entries, ever: set<Slot>, k: Pubkey) {
    forall p | p in entries && p.0 == k :: p.1 !in ever
  }

  /** The newest rooted write of a key is indexed, or it is zero-lamport and no rooted version is. */
  ghost predicate NewestIndexed(entries: Entries, ever: set<Slot>, history: Cache) {
    forall k, m | IsNewestWrite(history, ever, k, m) ::
      (k, m) in entries || (history[m][k].IsZeroLamport() && NoRootedEntry(entries, ever, k))
  }

  /** Unrooted writes are in the cache. */
  ghost predicate HistoryCached(history: Cache, ever: set<Slot>, cache: Cache) {
    forall x | x in history && x !in ever :: x in cache
  }

  /** What a shrink in progress drops is zero-lamport and has no other stored version. */
  ghost predicate ZeroPending(b: Background, index: Index, history: Cache) {
    b.Shrinking? ==> forall x, k | x in b.slots && b.slots[x].ShrinkIndex? && k in b.slots[x].zero ::
      IsZeroWrite(history, k, x) && SingleStored(index, k, x)
  }

  ghost predicate HistoryOk(s: State) {
    && NewestIndexed(s.index.Keys, s.everRooted, s.history)
    && HistoryCached(s.history, s.everRooted, s.cache)
    && ZeroPending(s.background, s.index, s.history)
  }

  /** Every entry is of a write. */
  ghost predicate EntriesWritten(entries: Entries, history: Cache) {
    forall p | p in entries :: p.1 in history && p.0 in history[p.1]
  }

  lemma EntriesAreWritten(s: State)
    requires Core(s)
    ensures EntriesWritten(s.index.Keys, s.history)
  {
    forall p | p in s.index ensures p.1 in s.history && p.0 in s.history[p.1] {
      if s.index[p].AppendVec? {
        assert p.0 in AccountsOf(s.storages, s.index[p].id);
      }
    }
  }

  // ---------------------------------------------------------------- entries that leave

  /** Dropping entries that are not the newest write keeps the invariant. */
  lemma DropOlder(entries: Entries, entries': Entries, ever: set<Slot>, history: Cache)
    requires NewestIndexed(entries, ever, history) && entries' <= entries
    requires forall p | p in entries && p !in entries' :: !IsNewestWrite(history, ever, p.0, p.1)
    ensures NewestIndexed(entries', ever, history)
  {
    forall k: Pubkey, m: Slot | IsNewestWrite(history, ever, k, m)
      ensures (k, m) in entries' || (history[m][k].IsZeroLamport() && NoRootedEntry(entries', ever, k))
    {
      assert (k, m) in entries ==> (k, m) in entries';
    }
  }

  lemma NotNewest(history: Cache, ever: set<Slot>, k: Pubkey, x: Slot, y: Slot)
    requires x < y && y in ever && y in history && k in history[y]
    ensures !IsNewestWrite(history, ever, k, x)
  {}

  lemma FlushPurgeKeyHistory(s: State, key: Pubkey)
    requires Core(s) && HistoryOk(s) && CanFlushPurgeKey(s, key)
    ensures HistoryOk(DoFlushPurgeKey(s, key))
  {
    EntriesAreWritten(s);
    var b := s.background;
    var s' := DoFlushPurgeKey(s, key);
    assert s'.index.Keys <= s.index.Keys;
    NotNewest(s.history, s.everRooted, key, b.phase.slot, b.written[key]);
    DropOlder(s.index.Keys, s'.index.Keys, s.everRooted, s.history);
  }

  lemma FlushIndexKeyHistory(s: State, key: Pubkey)
    requires Core(s) && HistoryOk(s) && CanFlushIndexKey(s, key)
    ensures HistoryOk(DoFlushIndexKey(s, key))
  {
    EntriesAreWritten(s);
    var s', slot := DoFlushIndexKey(s, key), s.background.phase.slot;
    assert (key, slot) in s.index;
    assert s'.index.Keys <= s.index.Keys;
    forall p | p in s.index.Keys && p !in s'.index.Keys ensures !IsNewestWrite(s.history, s.everRooted, p.0, p.1) {
      NotNewest(s.history, s.everRooted, key, p.1, slot);
    }
    DropOlder(s.index.Keys, s'.index.Keys, s.everRooted, s.history);
  }

  lemma CleanOutdatedHistory(s: State, key: Pubkey, slots: set<Slot>, bound: Slot)
    requires Core(s) && HistoryOk(s) && CanCleanKey(s, key, slots) && AreOutdated(s.index, s.roots, key, slots, bound)
    ensures NewestIndexed(DropKey(s.index, key, slots).Keys, s.everRooted, s.history)
  {
    EntriesAreWritten(s);
    var entries' := DropKey(s.index, key, slots).Keys;
    assert entries' <= s.index.Keys;
    forall p | p in s.index.Keys && p !in entries' ensures !IsNewestWrite(s.history, s.everRooted, p.0, p.1) {
      OutdatedIsOlder(s, key, slots, bound, p.1);
    }
    DropOlder(s.index.Keys, entries', s.everRooted, s.history);
  }

  lemma OutdatedIsOlder(s: State, key: Pubkey, slots: set<Slot>, bound: Slot, x: Slot)
    requires EntriesWritten(s.index.Keys, s.history) && AreOutdated(s.index, s.roots, key, slots, bound) && x in slots
    requires s.roots <= s.everRooted && IndexRooted(s.index, s.everRooted, s.roots)
    ensures !IsNewestWrite(s.history, s.everRooted, key, x)
  {
    if x in s.everRooted {
      assert (key, x) in s.index && x in s.roots;
      var p :| p in s.index && p.0 == key && p.1 in s.roots && p.1 <= bound && p.1 > x;
      assert p in s.index.Keys;
      NotNewest(s.history, s.everRooted, key, x, p.1);
    }
  }

  lemma CleanPurgedHistory(s: State, key: Pubkey, slots: set<Slot>, bound: Slot)
    requires Core(s) && HistoryOk(s) && CanCleanKey(s, key, slots) &&
      ArePurged(s.index, s.roots, s.history, key, slots, bound)
    ensures NewestIndexed(DropKey(s.index, key, slots).Keys, s.everRooted, s.history)
  {
    EntriesAreWritten(s);
    var entries' := DropKey(s.index, key, slots).Keys;
    forall k: Pubkey, m: Slot | IsNewestWrite(s.history, s.everRooted, k, m)
      ensures (k, m) in entries' || (s.history[m][k].IsZeroLamport() && NoRootedEntry(entries', s.everRooted, k))
    {
      if (k, m) in s.index.Keys && (k, m) !in entries' {
        NewestIsPurged(s, key, slots, bound, m);
      }
    }
  }

  lemma NewestIsPurged(s: State, key: Pubkey, slots: set<Slot>, bound: Slot, m: Slot)
    requires EntriesWritten(s.index.Keys, s.history) && ArePurged(s.index, s.roots, s.history, key, slots, bound)
    requires s.roots <= s.everRooted && IndexRooted(s.index, s.everRooted, s.roots)
    requires IsNewestWrite(s.history, s.everRooted, key, m) && m in slots
    ensures s.history[m][key].IsZeroLamport() && NoRootedEntry(DropKey(s.index, key, slots).Keys, s.everRooted, key)
  {
    forall p | p in s.index && p.0 == key && p.1 in s.everRooted ensures p.1 <= m { assert p in s.index.Keys; }
    assert IsNewestUpTo(s.index, s.roots, key, m, bound);
    forall p | p in DropKey(s.index, key, slots).Keys && p.0 == key ensures p.1 !in s.everRooted {
      assert p == (key, p.1);
    }
  }

  lemma CleanKeyHistory(s: State, key: Pubkey, slots: set<Slot>)
    requires Core(s) && HistoryOk(s) && CanCleanKey(s, key, slots) && Proper(s, CleanKey(key, slots))
    ensures HistoryOk(DoCleanKey(s, key, slots))
  {
    var bound: Slot :| AreOutdated(s.index, s.roots, key, slots, bound) ||
      ArePurged(s.index, s.roots, s.history, key, slots, bound);
    if AreOutdated(s.index, s.roots, key, slots, bound) {
      CleanOutdatedHistory(s, key, slots, bound);
    } else {
      CleanPurgedHistory(s, key, slots, bound);
    }
  }

  /** A zero-lamport record that a shrink drops is the key's newest write only if nothing else is indexed. */
  lemma ShrunkIsLast(s: State, slot: Slot, key: Pubkey)
    requires Core(s) && HistoryOk(s) && CanShrinkZeroKey(s, slot, key)
    ensures IsNewestWrite(s.history, s.everRooted, key, slot) ==>
      && IsZeroWrite(s.history, key, slot)
      && forall p | p in s.index.Keys && p.0 == key && p.1 in s.everRooted :: p.1 == slot
  {
    EntriesAreWritten(s);
    if IsNewestWrite(s.history, s.everRooted, key, slot) {
      forall p | p in s.index.Keys && p.0 == key && p.1 in s.everRooted ensures p.1 == slot {
        assert s.index[p].Cached? ==> !Done(s.everRooted, s.unflushed, s.background, p.1) && slot < p.1;
      }
    }
  }

  /** Dropping the only rooted entry of a key whose newest write is zero-lamport keeps the invariant. */
  lemma DropLast(entries: Entries, ever: set<Slot>, history: Cache, key: Pubkey, slot: Slot)
    requires NewestIndexed(entries, ever, history)
    requires IsNewestWrite(history, ever, key, slot) ==>
      IsZeroWrite(history, key, slot) && forall p | p in entries && p.0 == key && p.1 in ever :: p.1 == slot
    ensures NewestIndexed(entries - {(key, slot)}, ever, history)
  {
    var entries' := entries - {(key, slot)};
    forall k: Pubkey, m: Slot | IsNewestWrite(history, ever, k, m)
      ensures (k, m) in entries' || (history[m][k].IsZeroLamport() && NoRootedEntry(entries', ever, k))
    {
      if (k, m) == (key, slot) {
        forall p | p in entries' && p.0 == k ensures p.1 !in ever { assert p.1 == slot ==> p == (key, slot); }
      } else {
        assert (k, m) in entries ==> (k, m) in entries';
      }
    }
  }

  lemma DropsOne(index: Index, key: Pubkey, slot: Slot)
    ensures var index' := DropKey(index, key, {slot});
      index'.Keys == index.Keys - {(key, slot)} && forall p | p in index' :: index'[p] == index[p]
  {}

  lemma ShrinkZeroKeyHistory(s: State, slot: Slot, key: Pubkey)
    requires HistoryOk(s) && CanShrinkZeroKey(s, slot, key)
    requires IsNewestWrite(s.history, s.everRooted, key, slot) ==>
      && IsZeroWrite(s.history, key, slot)
      && forall p | p in s.index.Keys && p.0 == key && p.1 in s.everRooted :: p.1 == slot
    ensures HistoryOk(DoShrinkZeroKey(s, slot, key))
  {
    var s' := DoShrinkZeroKey(s, slot, key);
    DropLast(s.index.Keys, s.everRooted, s.history, key, slot);
    DropsOne(s.index, key, slot);
    hide NewestIndexed, ZeroPending, HistoryCached, IsNewestWrite, DropKey;
    ZeroStays(s.background, s'.background, s.index, s'.index, s.history);
  }

  // ---------------------------------------------------------------- writes and roots

  lemma StoreCacheHistory(s: State, t: nat, slot: Slot, key: Pubkey, a: Account)
    requires Core(s) && HistoryOk(s) && CanStoreCache(s, t, slot, key, a)
    ensures HistoryOk(DoStoreCache(s, t, slot, key, a))
  {
    var s' := DoStoreCache(s, t, slot, key, a);
    SameNewest(s.index.Keys, s.everRooted, s.history, s'.history);
    assert forall x | x in s.everRooted && x in s.history :: s'.history[x] == s.history[x];
    SameZero(s, s');
  }

  /** Writes to unrooted slots change no newest rooted write. */
  lemma SameNewest(entries: Entries, ever: set<Slot>, history: Cache, history': Cache)
    requires NewestIndexed(entries, ever, history)
    requires forall x | x in ever :: (x in history' <==> x in history) && (x in history ==> history'[x] == history[x])
    ensures NewestIndexed(entries, ever, history')
  {
    forall k: Pubkey, m: Slot | IsNewestWrite(history', ever, k, m)
      ensures (k, m) in entries || (history'[m][k].IsZeroLamport() && NoRootedEntry(entries, ever, k))
    {
      assert IsNewestWrite(history, ever, k, m);
    }
  }

  /** What a shrink drops is in a rooted slot, which nothing writes to. */
  lemma SameZero(s: State, s': State)
    requires Core(s) && ZeroPending(s.background, s.index, s.history) && s'.background == s.background &&
      s'.index == s.index
    requires forall x | x in s.everRooted && x in s.history :: x in s'.history && s'.history[x] == s.history[x]
    ensures ZeroPending(s'.background, s'.index, s'.history)
  {
    var b := s.background;
    if b.Shrinking? {
      forall x, k | x in b.slots && b.slots[x].ShrinkIndex? && k in b.slots[x].zero
        ensures IsZeroWrite(s'.history, k, x) && SingleStored(s'.index, k, x)
      {
        assert x in s.storageMap && x in s.everRooted;
      }
    }
  }

  /** Fewer stored entries and fewer records to drop keep what a shrink relies on. */
  lemma ZeroStays(b: Background, b': Background, index: Index, index': Index, history: Cache)
    requires ZeroPending(b, index, history)
    requires forall p | p in index' && index'[p].AppendVec? :: p in index && index[p].AppendVec?
    requires b'.Shrinking? ==> b.Shrinking? && forall x | x in b'.slots && b'.slots[x].ShrinkIndex? ::
      x in b.slots && b.slots[x].ShrinkIndex? && b'.slots[x].zero <= b.slots[x].zero
    ensures ZeroPending(b', index', history)
  {
    if b'.Shrinking? {
      forall x, k | x in b'.slots && b'.slots[x].ShrinkIndex? && k in b'.slots[x].zero
        ensures IsZeroWrite(history, k, x) && SingleStored(index', k, x)
      {
        assert SingleStored(index, k, x);
      }
    }
  }

  /** An unrooted entry changes no newest rooted write. */
  lemma AddUnrooted(entries: Entries, ever: set<Slot>, history: Cache, p: (Pubkey, Slot))
    requires NewestIndexed(entries, ever, history) && p.1 !in ever
    ensures NewestIndexed(entries + {p}, ever, history)
  {
    forall k: Pubkey, m: Slot | IsNewestWrite(history, ever, k, m)
      ensures (k, m) in entries + {p} || (history[m][k].IsZeroLamport() && NoRootedEntry(entries + {p}, ever, k))
    {
      assert (k, m) in entries ==> (k, m) in entries + {p};
    }
  }

  lemma StoreIndexHistory(s: State, t: nat)
    requires StoringOk(s.storing, s.everRooted, s.cache, s.background) && HistoryOk(s) && CanStoreIndex(s, t)
    ensures HistoryOk(DoStoreIndex(s, t))
  {
    var s', p := DoStoreIndex(s, t), s.storing[t];
    AddUnrooted(s.index.Keys, s.everRooted, s.history, p);
    ZeroStays(s.background, s'.background, s.index, s'.index, s.history);
    hide NewestIndexed, ZeroPending, HistoryCached;
    assert s'.index.Keys == s.index.Keys + {p};
  }

  /** A write of a slot that is about to be rooted is indexed. */
  lemma RootedIsIndexed(s: State, slot: Slot, k: Pubkey)
    requires Core(s) && HistoryOk(s) && CanAddRoot(s, slot) && slot in s.history && k in s.history[slot]
    ensures (k, slot) in s.index
  {
    assert slot !in s.everRooted;
    assert slot in s.cache && k in s.cache[slot];
    assert !InFlight(s.storing, k, slot);
  }

  lemma AddRootHistory(s: State, slot: Slot)
    requires Core(s) && HistoryOk(s) && CanAddRoot(s, slot)
    ensures HistoryOk(DoAddRoot(s, slot))
  {
    EntriesAreWritten(s);
    var ever' := s.everRooted + {slot};
    forall k: Pubkey, m: Slot | IsNewestWrite(s.history, ever', k, m)
      ensures (k, m) in s.index.Keys || (s.history[m][k].IsZeroLamport() && NoRootedEntry(s.index.Keys, ever', k))
    {
      if slot in s.history && k in s.history[slot] {
        assert m == slot;
        RootedIsIndexed(s, slot, k);
      } else {
        assert IsNewestWrite(s.history, s.everRooted, k, m);
        forall p | p in s.index.Keys && p.0 == k ensures p.1 != slot {}
      }
    }
  }

  lemma PurgeKeyHistory(s: State, key: Pubkey)
    requires Core(s) && HistoryOk(s) && CanPurgeKey(s, key)
    ensures HistoryOk(DoPurgeKey(s, key))
  {
    var s' := DoPurgeKey(s, key);
    assert s'.index.Keys <= s.index.Keys;
    DropOlder(s.index.Keys, s'.index.Keys, s.everRooted, s.history);
  }

  lemma EndPurgeHistory(s: State)
    requires Core(s) && HistoryOk(s) && CanEndPurge(s)
    ensures HistoryOk(DoEndPurge(s))
  {
    SameNewest(s.index.Keys, s.everRooted, s.history, DoEndPurge(s).history);
  }

  lemma FlushDropHistory(s: State)
    requires Core(s) && HistoryOk(s) && CanFlushDrop(s)
    ensures HistoryOk(DoFlushDrop(s))
  {
    assert s.background.phase.slot in Current(s.background);
  }

  // ---------------------------------------------------------------- shrinks

  lemma ShrinkSlotHistory(s: State, slot: Slot, zero: set<Pubkey>)
    requires HistoryOk(s) && CanShrinkSlot(s, slot, zero) && Proper(s, ShrinkSlot(slot, zero))
    ensures HistoryOk(DoShrinkSlot(s, slot, zero))
  {
    hide NewestIndexed, SingleStored, IsZeroWrite;
  }

  lemma ShrinkIndexKeyHistory(s: State, slot: Slot, key: Pubkey)
    requires HistoryOk(s) && CanShrinkIndexKey(s, slot, key) && (key, slot) in s.index &&
      s.index[(key, slot)].AppendVec?
    ensures HistoryOk(DoShrinkIndexKey(s, slot, key))
  {
    var s' := DoShrinkIndexKey(s, slot, key);
    ZeroStays(s.background, s'.background, s.index, s'.index, s.history);
    hide NewestIndexed, ZeroPending, HistoryCached;
    assert s'.index.Keys == s.index.Keys;
  }

  /** An entry that a shrink is moving is a stored one. */
  lemma MovedIsStored(s: State, slot: Slot, key: Pubkey)
    requires Core(s) && CanShrinkIndexKey(s, slot, key)
    ensures (key, slot) in s.index && s.index[(key, slot)].AppendVec?
  {
    assert slot in s.storageMap;
  }

  lemma ShrinkSwapHistory(s: State, slot: Slot)
    requires HistoryOk(s) && CanShrinkSwap(s, slot)
    ensures HistoryOk(DoShrinkSwap(s, slot))
  {
    hide NewestIndexed, SingleStored, IsZeroWrite;
  }

  lemma ShrinkEndHistory(s: State, slot: Slot)
    requires HistoryOk(s) && CanShrinkEnd(s, slot)
    ensures HistoryOk(DoShrinkEnd(s, slot))
  {
    hide NewestIndexed, SingleStored, IsZeroWrite;
  }

  // ---------------------------------------------------------------- every step

  /** Steps that change neither the index nor the history, and start no drop. */
  lemma QuietHistory(s: State, s': State)
    requires HistoryOk(s) && s'.index == s.index && s'.history == s.history && s'.everRooted == s.everRooted &&
      s'.cache == s.cache
    requires s'.background == s.background || !s'.background.Shrinking? || s'.background.slots == map[]
    ensures HistoryOk(s')
  {
    hide NewestIndexed, HistoryCached;
  }

  lemma StoreNextHistory(s: State, step: Step, s': State)
    requires Core(s) && HistoryOk(s) && StoreNext(s, step, s')
    ensures HistoryOk(s')
  {
    hide HistoryOk;
    match step {
      case StoreCache(t, slot, key, a) => StoreCacheHistory(s, t, slot, key, a);
      case StoreIndex(t) => StoreIndexHistory(s, t);
      case AddRoot(slot) => AddRootHistory(s, slot);
    }
  }

  lemma FlushBatchNextHistory(s: State, step: Step, s': State)
    requires HistoryOk(s) && FlushBatchNext(s, step, s')
    ensures HistoryOk(s')
  {
    hide HistoryOk;
    QuietHistory(s, s');
  }

  lemma FlushSlotNextHistory(s: State, step: Step, s': State)
    requires Core(s) && HistoryOk(s) && FlushSlotNext(s, step, s')
    ensures HistoryOk(s')
  {
    hide HistoryOk, Core;
    match step {
      case FlushPurgeKey(key) => FlushPurgeKeyHistory(s, key);
      case FlushIndexKey(key) => FlushIndexKeyHistory(s, key);
      case FlushDrop => FlushDropHistory(s);
      case _ => QuietHistory(s, s');
    }
  }

  lemma ReclaimNextHistory(s: State, step: Step, s': State)
    requires HistoryOk(s) && ReclaimNext(s, step, s')
    ensures HistoryOk(s')
  {
    hide HistoryOk;
    QuietHistory(s, s');
  }

  lemma CleanNextHistory(s: State, step: Step, s': State)
    requires Core(s) && HistoryOk(s) && CleanNext(s, step, s') && Proper(s, step)
    ensures HistoryOk(s')
  {
    hide HistoryOk, Core;
    match step {
      case CleanKey(key, slots) => CleanKeyHistory(s, key, slots);
      case _ => QuietHistory(s, s');
    }
  }

  lemma PurgeNextHistory(s: State, step: Step, s': State)
    requires Core(s) && HistoryOk(s) && PurgeNext(s, step, s')
    ensures HistoryOk(s')
  {
    hide HistoryOk, Core;
    match step {
      case BeginPurge(slot) => QuietHistory(s, s');
      case PurgeKey(key) => PurgeKeyHistory(s, key);
      case EndPurge => EndPurgeHistory(s);
    }
  }

  lemma ShrinkSlotNextHistory(s: State, step: Step, s': State)
    requires Core(s) && HistoryOk(s) && ShrinkSlotNext(s, step, s') && Proper(s, step)
    ensures HistoryOk(s')
  {
    hide HistoryOk, Core;
    match step {
      case BeginShrink => QuietHistory(s, s');
      case ShrinkSlot(slot, zero) => ShrinkSlotHistory(s, slot, zero);
      case ShrinkIndexKey(slot, key) => MovedIsStored(s, slot, key); ShrinkIndexKeyHistory(s, slot, key);
      case ShrinkZeroKey(slot, key) => ShrunkIsLast(s, slot, key); ShrinkZeroKeyHistory(s, slot, key);
    }
  }

  lemma ShrinkSwapNextHistory(s: State, step: Step, s': State)
    requires HistoryOk(s) && ShrinkSwapNext(s, step, s')
    ensures HistoryOk(s')
  {
    hide HistoryOk;
    match step {
      case ShrinkSwap(slot) => ShrinkSwapHistory(s, slot);
      case ShrinkEnd(slot) => ShrinkEndHistory(s, slot);
      case EndShrink => QuietHistory(s, s');
    }
  }

  lemma LoadNextHistory(s: State, step: Step, s': State)
    requires HistoryOk(s) && LoadNext(s, step, s')
    ensures HistoryOk(s')
  {
    hide HistoryOk, AfterLookup;
    QuietHistory(s, s');
  }

  lemma EveryStepHistory(s: State, step: Step, s': State)
    requires Core(s) && HistoryOk(s) && Next(s, step, s') && Proper(s, step)
    ensures HistoryOk(s')
  {
    hide Core, HistoryOk, Proper;
    hide StoreNext, FlushBatchNext, FlushSlotNext, ReclaimNext, CleanNext, PurgeNext, ShrinkSlotNext, ShrinkSwapNext,
      LoadNext;
    if StoreNext(s, step, s') {
      StoreNextHistory(s, step, s');
    } else if FlushBatchNext(s, step, s') {
      FlushBatchNextHistory(s, step, s');
    } else if FlushSlotNext(s, step, s') {
      FlushSlotNextHistory(s, step, s');
    } else if ReclaimNext(s, step, s') {
      ReclaimNextHistory(s, step, s');
    } else if CleanNext(s, step, s') {
      CleanNextHistory(s, step, s');
    } else if PurgeNext(s, step, s') {
      PurgeNextHistory(s, step, s');
    } else if ShrinkSlotNext(s, step, s') {
      ShrinkSlotNextHistory(s, step, s');
    } else if ShrinkSwapNext(s, step, s') {
      ShrinkSwapNextHistory(s, step, s');
    } else {
      LoadNextHistory(s, step, s');
    }
  }

  lemma {:induction false} HistoryOfRuns(states: seq<State>, steps: seq<Step>, i: nat)
    requires IsProperRun(states, steps) && i < |states|
    ensures Core(states[i]) && HistoryOk(states[i])
  {
    LoadTheorems.InvariantOfRuns(states, steps, i);
    if i > 0 {
      HistoryOfRuns(states, steps, i - 1);
      assert Next(states[i - 1], steps[i - 1], states[i - 1 + 1]) && Proper(states[i - 1], steps[i - 1]);
      EveryStepHistory(states[i - 1], steps[i - 1], states[i]);
    }
  }

  // ---------------------------------------------------------------- what loads return

  /** A write that is not on its way into the index and whose slot is not being purged. */
  ghost predicate Landed(s: State, k: Pubkey, x: Slot) {
    && x in s.history && k in s.history[x]
    && !InFlight(s.storing, k, x) && !(s.background.Purging? && s.background.purged == x)
  }

  /** The unrooted slots of the load's fork are newer than every root. */
  ghost predicate OnFork(ever: set<Slot>, ancestors: set<Slot>) {
    forall x, y | x in ancestors && x !in ever && y in ever :: y < x
  }

  /** No visible write is newer than the one at `x`. */
  ghost predicate IsNewestVisible(s: State, k: Pubkey, ancestors: set<Slot>, x: Slot) {
    && x in s.history && k in s.history[x] && (x in ancestors || x in s.everRooted)
    && forall y: Slot | Landed(s, k, y) && (y in ancestors || y in s.everRooted) :: y <= x
  }

  lemma LandedIsIndexed(s: State, k: Pubkey, x: Slot)
    requires Core(s) && HistoryOk(s) && Landed(s, k, x) && x !in s.everRooted
    ensures (k, x) in s.index
  {
    assert x in s.cache && k in s.cache[x];
    assert x !in Current(s.background);
  }

  lemma HasNewestWrite(history: Cache, ever: set<Slot>, k: Pubkey, x: Slot) returns (m: Slot)
    requires x in ever && x in history && k in history[x]
    ensures IsNewestWrite(history, ever, k, m) && x <= m
  {
    var writes := set y | y in ever && y in history && k in history[y];
    assert x in writes;
    m := Sets.MaxOf(writes);
    forall y | y in ever && y in history && k in history[y] ensures y <= m { assert y in writes; }
  }

  /** The newest visible entry of the index is the newest visible write. */
  lemma LatestIsNewest(s: State, k: Pubkey, ancestors: set<Slot>, x: Slot)
    requires Core(s) && HistoryOk(s) && OnFork(s.everRooted, ancestors) && IsLatest(s.index, s.roots, k, ancestors, x)
    ensures IsNewestVisible(s, k, ancestors, x)
  {
    EntriesAreWritten(s);
    assert (k, x) in s.index.Keys;
    forall y: Slot | Landed(s, k, y) && Visible(s.everRooted, ancestors, y) ensures y <= x {
      if y in s.everRooted && x in s.everRooted {
        var m := HasNewestWrite(s.history, s.everRooted, k, y);
        assert (k, m) in s.index.Keys by { assert (k, x) in s.index.Keys && x in s.everRooted; }
      } else if y !in s.everRooted {
        LandedIsIndexed(s, k, y);
      }
    }
  }

  /** Where the index has nothing visible, there is no visible write, or the newest is zero-lamport. */
  lemma NothingIsZero(s: State, k: Pubkey, ancestors: set<Slot>, y: Slot)
    requires Core(s) && HistoryOk(s) && NothingVisible(s.index, s.roots, k, ancestors)
    requires Landed(s, k, y) && Visible(s.everRooted, ancestors, y)
    ensures y in s.everRooted && exists m ::
      IsNewestWrite(s.history, s.everRooted, k, m) && IsZeroWrite(s.history, k, m)
  {
    if y !in s.everRooted {
      LandedIsIndexed(s, k, y);
      assert false;
    }
    var m := HasNewestWrite(s.history, s.everRooted, k, y);
    assert (k, m) !in s.index.Keys;
    assert IsZeroWrite(s.history, k, m);
  }

  /** A load returns the newest visible write at a moment of the load. */
  lemma LoadsTheNewestWrite(states: seq<State>, steps: seq<Step>, i: nat, r: nat) returns (j: nat)
    requires IsProperRun(states, steps) && i < |steps| && steps[i] == Lookup(r)
    requires states[i + 1].readers[r].phase.Loaded?
    ensures var slot := states[i + 1].readers[r].phase.slot;
      && ReadAt(states, r, j, i, slot)
      && (OnFork(states[j].everRooted, states[j].readers[r].ancestors) ==>
            IsNewestVisible(states[j], states[j].readers[r].key, states[j].readers[r].ancestors, slot))
      && slot in states[i].history && states[i].readers[r].key in states[i].history[slot]
      && states[i + 1].readers[r].phase.account == states[i].history[slot][states[i].readers[r].key]
  {
    j := LoadsTheLatest(states, steps, i, r);
    LoadsWhatWasStored(states, steps, i, r);
    HistoryOfRuns(states, steps, j);
    var s := states[j];
    assert SameLoad(states[j].readers, states[i].readers, r);
    if OnFork(s.everRooted, s.readers[r].ancestors) {
      LatestIsNewest(s, s.readers[r].key, s.readers[r].ancestors, states[i + 1].readers[r].phase.slot);
    }
  }

  /** A load finds nothing only when the newest visible write is zero-lamport or there is none. */
  lemma MissesOnlyZero(states: seq<State>, steps: seq<Step>, i: nat, r: nat, y: Slot)
    requires IsProperRun(states, steps) && i < |steps| && steps[i] == ReadNothing(r) && r in states[i].readers
    requires Landed(states[i], states[i].readers[r].key, y)
    requires y in states[i].readers[r].ancestors || y in states[i].everRooted
    ensures var s, k := states[i], states[i].readers[r].key;
      y in s.everRooted && exists m :: IsNewestWrite(s.history, s.everRooted, k, m) && s.history[m][k].lamports == 0
  {
    HistoryOfRuns(states, steps, i);
    assert Next(states[i], steps[i], states[i + 1]);
    NothingIsZero(states[i], states[i].readers[r].key, states[i].readers[r].ancestors, y);
  }
}
