/**
 What each operation changes, entry by entry and record by record, told by the database before and after.
 */
module OperationEffects {
  import opened Types
  import Sets
  import opened Database
  import opened DatabaseInvariant
  import opened DatabaseProof
  import opened DatabaseTheorems

  /** A store adds or replaces the accounts in the slot's cache and points their entries there. */
  lemma StoreEffect(db: Db, slot: Slot, accounts: map<Pubkey, Account>)
    ensures var db' := StoreAccounts(db, slot, accounts);
      && (forall x, k :: x in db'.cache && k in db'.cache[x] <==>
            (x in db.cache && k in db.cache[x]) || (x == slot && k in accounts))
      && (forall k | k in accounts :: db'.cache[slot][k] == accounts[k])
      && (forall x, k | x in db'.cache && k in db'.cache[x] && !(x == slot && k in accounts) ::
            db'.cache[x][k] == db.cache[x][k])
      && (forall p :: p in db'.index <==> p in db.index || (p.1 == slot && p.0 in accounts))
      && (forall p | p in db'.index ::
            db'.index[p] == if p.1 == slot && p.0 in accounts then Location.Cached else db.index[p])
      && db' == db.(cache := db'.cache, index := db'.index, history := db'.history)
  {}

  /** The storages that lose their last entry, and no others, go with their roots. */
  lemma ReclaimEffect(db: Db, gone: set<Pair>, removed: set<Pubkey>)
    ensures var db' := Reclaim(db, gone, removed);
      && (forall p :: p in db'.index <==> p in db.index && p !in gone)
      && (forall p | p in db'.index :: db'.index[p] == db.index[p])
      && (forall x :: x in db'.stores <==>
            x in db.stores && ((forall k :: (k, x) !in gone) || exists p | p in db.index :: p.1 == x && p !in gone))
      && (forall x | x in db'.stores :: db'.stores[x] == db.stores[x])
      && db'.roots == db.roots - (db.stores.Keys - db'.stores.Keys)
      && db' == db.(index := db'.index, stores := db'.stores, roots := db'.roots, refs := db'.refs)
  {
    hide Emptied, Unref;
    var db' := Reclaim(db, gone, removed);
    var dead := Emptied(db'.index, db.stores, gone);
    forall x: Slot
      ensures x in dead <==>
        x in db.stores && (exists k :: (k, x) in gone) && forall p | p in db.index :: p.1 == x ==> p in gone
    {
      LostItsLast(db.index, db'.index, db.stores, gone, x);
    }
    assert db.stores.Keys - db'.stores.Keys == dead;
  }

  lemma LostItsLast(index: Index, index': Index, stores: Stores, gone: set<Pair>, x: Slot)
    requires forall p :: p in index' <==> p in index && p !in gone
    ensures x in Emptied(index', stores, gone) <==>
      x in stores && (exists k :: (k, x) in gone) && forall p | p in index :: p.1 == x ==> p in gone
  {
    if k :| (k, x) in gone { assert k in KeysAt(gone, x); }
  }

  /** Each key loses one reference for each removed storage with a record of it that is not obsolete. */
  lemma ReclaimRefs(db: Db, gone: set<Pair>, removed: set<Pubkey>, k: Pubkey)
    requires k in db.refs
    ensures var db' := Reclaim(db, gone, removed);
      && (k in db'.refs <==> k !in removed)
      && (k !in removed ==>
            db'.refs[k] == db.refs[k] -
            |set x | x in db.stores && x !in db'.stores && k in db.stores[x].accounts && k !in db.stores[x].obsolete|)
  {
    var db' := Reclaim(db, gone, removed);
    var dead := Emptied(db'.index, db.stores, gone);
    assert Holders(db.stores, k) * dead ==
      set x | x in db.stores && x !in db'.stores && k in db.stores[x].accounts && k !in db.stores[x].obsolete;
  }

  /** Of the keys' stored versions below the clean root, the newest rooted one stays and the others go. */
  lemma CleanOlderEffect(db: Db, keys: set<Pubkey>, bound: Slot)
    ensures var db' := CleanOlder(db, keys, bound);
      && (forall p :: p in db'.index <==>
            p in db.index &&
            !(db.index[p].Stored? && p.0 in keys && p.1 < bound &&
              (p.1 !in db.roots || exists q | q in db.index :: q.0 == p.0 && q.1 in db.roots && p.1 < q.1 <= bound)))
      && (forall x :: x in db'.stores <==>
            x in db.stores &&
            ((forall p | p in db.index && p.1 == x :: p in db'.index) || exists p | p in db'.index :: p.1 == x))
  {
    var db' := CleanOlder(db, keys, bound);
    var older := Older(db.index, db.roots, keys, bound);
    ReclaimEffect(db, older, {});
    forall x | x in db.stores
      ensures (forall k :: (k, x) !in older) <==> forall p | p in db.index && p.1 == x :: p in db'.index
    {
      if k :| (k, x) in older { assert (k, x).1 == x; }
      if p :| p in db.index && p.1 == x && p !in db'.index { assert p == (p.0, x); }
    }
  }

  /** The keys lose every rooted entry up to the clean root, and the storages of those entries go. */
  lemma PurgeZeroEffect(db: Db, keys: set<Pubkey>, bound: Slot)
    requires CanPurgeZero(db, keys, bound)
    ensures var db' := PurgeZero(db, keys, bound);
      && (forall p :: p in db'.index <==> p in db.index && !(p.0 in keys && p.1 in db.roots && p.1 <= bound))
      && (forall x :: x in db'.stores <==>
            x in db.stores && forall p | p in db.index && p.1 == x :: !(p.0 in keys && x in db.roots && x <= bound))
      && (forall x | x in db'.stores :: db'.stores[x] == db.stores[x])
  {
    var gone := RootedUpTo(db.index, db.roots, keys, bound);
    assert forall p, q | p in gone && q in db.index && q.1 == p.1 :: q in gone;
    hide CanPurgeZero, Reclaim, Removed;
    ReclaimEffect(db, gone, Removed(db.index, gone, keys));
    forall x: Slot
      ensures ((forall k :: (k, x) !in gone) || exists p | p in db.index :: p.1 == x && p !in gone) <==>
        forall p | p in db.index && p.1 == x :: !(p.0 in keys && x in db.roots && x <= bound)
    {
      AllOrNone(db, keys, bound, gone, x);
    }
  }

  lemma AllOrNone(db: Db, keys: set<Pubkey>, bound: Slot, gone: set<Pair>, x: Slot)
    requires gone == RootedUpTo(db.index, db.roots, keys, bound)
    requires forall p, q | p in gone && q in db.index && q.1 == p.1 :: q in gone
    ensures ((forall k :: (k, x) !in gone) || exists p | p in db.index :: p.1 == x && p !in gone) <==>
      forall p | p in db.index && p.1 == x :: !(p.0 in keys && x in db.roots && x <= bound)
  {
    if p :| p in db.index && p.1 == x && p.0 in keys && x in db.roots && x <= bound {
      assert p == (p.0, x) && p in gone;
    }
    if k :| (k, x) in gone { assert (k, x).1 == x; }
  }

  /** The storage keeps its alive accounts less the dropped ones, and only the records that go lose a reference. */
  lemma ShrinkEffect(db: Db, slot: Slot, zero: set<Pubkey>)
    requires CanShrink(db, slot, zero) && StoredMatches(db.index, db.stores)
    requires exists k :: k !in zero && (k, slot) in db.index && db.index[(k, slot)].Stored?
    ensures var db' := Apply(db, OpShrink(slot, zero));
      && db' == Shrink(db, slot, zero)
      && slot in db'.stores && db'.stores[slot].obsolete == {}
      && (forall k :: k in db'.stores[slot].accounts <==>
            k !in zero && (k, slot) in db.index && db.index[(k, slot)].Stored?)
      && (forall k | k in db'.stores[slot].accounts :: k in db.stores[slot].accounts &&
            db'.stores[slot].accounts[k] == db.stores[slot].accounts[k])
      && (forall x | x != slot :: (x in db'.stores <==> x in db.stores) &&
            (x in db.stores ==> db'.stores[x] == db.stores[x]))
      && (forall p :: p in db'.index <==> p in db.index && !(p.1 == slot && p.0 in zero))
      && (forall p | p in db'.index :: db'.index[p] == db.index[p])
      && db'.refs.Keys == db.refs.Keys
      && (forall k | k in db.refs :: db'.refs[k] == db.refs[k] -
            if k in db.stores[slot].accounts && k !in db.stores[slot].obsolete && k !in db'.stores[slot].accounts
            then 1 else 0)
      && db' == db.(index := db'.index, refs := db'.refs, stores := db'.stores)
  {
    var kept := AliveAt(db.index, slot) - zero;
    var k :| k !in zero && (k, slot) in db.index && db.index[(k, slot)].Stored?;
    assert k in kept;
    forall k | k in kept ensures k in db.stores[slot].accounts { assert HoldsKey(db.stores, (k, slot).1, (k, slot).0); }
  }

  /** A storage with nothing to keep is left as it is. */
  lemma ShrinkNothing(db: Db, slot: Slot, zero: set<Pubkey>)
    requires CanShrink(db, slot, zero)
    requires forall k | (k, slot) in db.index && db.index[(k, slot)].Stored? :: k in zero
    ensures Shrink(db, slot, zero) == db
  {
    assert AliveAt(db.index, slot) - zero == {};
  }

  // ---------------------------------------------------------------- flush

  /** The cached accounts of a rooted slot reach a storage, unless the batch has written a newer version and cleans;
      with them go the older stored versions, if the flush marks those obsolete. */
  lemma FlushSlotEffect(db: Db, slot: Slot, written: set<Pubkey>, clean: bool, mark: bool)
    requires CanFlush(db, slot) && slot !in db.stores
    requires CacheMatches(db.index, db.cache) && StoredMatches(db.index, db.stores)
    ensures var db' := FlushSlot(db, slot, written, clean, mark);
      && db'.cache == db.cache - {slot} && db'.ever == db.ever && db'.history == db.history
      && (slot in db'.stores <==> exists k :: k in db.cache[slot] && !(clean && k in written))
      && (slot in db'.stores ==>
            && db'.stores[slot].obsolete == {}
            && (forall k :: k in db'.stores[slot].accounts <==> k in db.cache[slot] && !(clean && k in written))
            && (forall k | k in db'.stores[slot].accounts :: db'.stores[slot].accounts[k] == db.cache[slot][k]))
      && (forall p | p in db.index && p.1 == slot ::
            (p in db'.index <==> !(clean && p.0 in written)) && (p in db'.index ==> db'.index[p].Stored?))
      && (forall p | p in db.index && p.1 != slot :: p in db'.index <==>
            !(clean && mark && db.index[p].Stored? && p.1 < slot && p.0 in db.cache[slot] && p.0 !in written))
      && (forall p | p in db'.index :: p in db.index && (p.1 != slot ==> db'.index[p] == db.index[p]))
  {
    hide FlushRefs, FlushKills, MarkObsolete;
    var write := Writes(db.cache, slot, written, clean);
    assert forall k :: k in write <==> k in db.cache[slot] && !(clean && k in written);
    forall p | p in db.index && p.1 == slot ensures p.0 in db.cache[slot] && db.index[p].Cached? {
      assert db.index[p].Stored? ==> HoldsKey(db.stores, p.1, p.0);
    }
    NotMarked(db, slot, written, clean, mark);
  }

  lemma NotMarked(db: Db, slot: Slot, written: set<Pubkey>, clean: bool, mark: bool)
    requires slot !in db.stores
    ensures slot !in MarkObsolete(db.stores, FlushReclaims(db, slot, written, clean, mark),
      FlushKills(db, slot, written, clean, mark))
  {}

  /** In the storages that stay, exactly the reclaimed versions are marked obsolete. */
  lemma FlushMarks(db: Db, slot: Slot, written: set<Pubkey>, clean: bool, mark: bool, x: Slot)
    requires x != slot
    ensures var db' := FlushSlot(db, slot, written, clean, mark);
      x in db'.stores ==>
        && x in db.stores && db'.stores[x].accounts == db.stores[x].accounts
        && forall k :: k in db'.stores[x].obsolete <==>
             k in db.stores[x].obsolete || ((k, x) in db.index && (k, x) !in db'.index)
  {
    hide FlushRefs, FlushKills;
    var reclaims := FlushReclaims(db, slot, written, clean, mark);
    forall k ensures (k, x) in reclaims <==>
      (k, x) in db.index && (k, x) !in FlushedIndex(db, slot, written, clean, mark) {}
  }

  // ---------------------------------------------------------------- a batch

  /** The batch takes this entry: it has a newer version to write in a slot it cleans, and the flush marks. */
  ghost predicate BatchReclaims(db: Db, slots: seq<Slot>, written: set<Pubkey>, clean: Option<Slot>, mark: bool,
                                p: Pair) {
    mark && exists y ::
      y in slots && Cleans(clean, y) && p.1 < y && BatchWrites(db.cache, slots, written, clean, y, p.0)
  }

  /** What a batch does to one index entry. */
  ghost predicate EntryFlushed(db: Db, db': Db, slots: seq<Slot>, written: set<Pubkey>, clean: Option<Slot>, mark: bool,
                               p: Pair)
    requires p in db.index
  {
    if p.1 in slots then
      && (p in db'.index <==> BatchWrites(db.cache, slots, written, clean, p.1, p.0))
      && (p in db'.index ==> db'.index[p].Stored?)
    else
      && (p in db'.index <==> !(db.index[p].Stored? && BatchReclaims(db, slots, written, clean, mark, p)))
      && (p in db'.index ==> db'.index[p] == db.index[p])
  }

  /** The first slot of the batch, then the others. */
  lemma ReclaimsNext(db: Db, db1: Db, slots: seq<Slot>, written: set<Pubkey>, clean: Option<Slot>, mark: bool, p: Pair)
    requires slots != [] && (forall y | y in slots[1..] :: y < slots[0])
    requires slots[0] in db.cache && db1.cache == db.cache - {slots[0]}
    ensures BatchReclaims(db, slots, written, clean, mark, p) <==>
      || BatchReclaims(db1, slots[1..], NowWritten(db.cache, slots[0], written, Cleans(clean, slots[0])), clean, mark,
           p)
      || (mark && Cleans(clean, slots[0]) && p.1 < slots[0] && p.0 in db.cache[slots[0]] && p.0 !in written)
  {
    var slot, written1 := slots[0], NowWritten(db.cache, slots[0], written, Cleans(clean, slots[0]));
    hide NowWritten;
    assert slots == [slot] + slots[1..];
    assert forall y :: y in slots <==> y == slot || y in slots[1..];
    forall y | y in slots[1..]
      ensures BatchWrites(db1.cache, slots[1..], written1, clean, y, p.0) <==>
        BatchWrites(db.cache, slots, written, clean, y, p.0)
    {
      NextWrites(db.cache, slots, written, clean, y, p.0);
    }
    assert Cleans(clean, slot) ==>
      (BatchWrites(db.cache, slots, written, clean, slot, p.0) <==> p.0 in db.cache[slot] && p.0 !in written);
    hide BatchWrites;
  }

  lemma EntryNext(db: Db, db1: Db, db': Db, slots: seq<Slot>, written: set<Pubkey>, clean: Option<Slot>, mark: bool,
                  p: Pair)
    requires slots != [] && (forall y | y in slots[1..] :: y < slots[0])
    requires slots[0] in db.cache && db1.cache == db.cache - {slots[0]} && (p in db1.index ==> p in db.index)
    requires p in db.index && p.1 == slots[0] ==>
      && p.0 in db.cache[slots[0]] && (p in db1.index <==> !(Cleans(clean, slots[0]) && p.0 in written))
      && (p in db1.index ==> db1.index[p].Stored?)
    requires p in db.index && p.1 != slots[0] ==>
      && (p in db1.index ==> db1.index[p] == db.index[p])
      && (p in db1.index <==> !(Cleans(clean, slots[0]) && mark && db.index[p].Stored? && p.1 < slots[0] &&
                                p.0 in db.cache[slots[0]] && p.0 !in written))
    requires var written1 := NowWritten(db.cache, slots[0], written, Cleans(clean, slots[0]));
      if p in db1.index then EntryFlushed(db1, db', slots[1..], written1, clean, mark, p) else p !in db'.index
    ensures if p in db.index then EntryFlushed(db, db', slots, written, clean, mark, p) else p !in db'.index
  {
    hide NowWritten;
    var slot, written1 := slots[0], NowWritten(db.cache, slots[0], written, Cleans(clean, slots[0]));
    assert slots == [slot] + slots[1..];
    assert forall y :: y in slots <==> y == slot || y in slots[1..];
    ReclaimsNext(db, db1, slots, written, clean, mark, p);
    if p.1 in slots[1..] { NextWrites(db.cache, slots, written, clean, p.1, p.0); }
    if p in db.index && p.1 == slot { NoneAbove(db1, slots[1..], written1, clean, mark, p); }
  }

  lemma NoneAbove(db: Db, slots: seq<Slot>, written: set<Pubkey>, clean: Option<Slot>, mark: bool, p: Pair)
    requires forall y | y in slots :: y < p.1
    ensures !BatchReclaims(db, slots, written, clean, mark, p)
  {}

  lemma {:induction false} BatchIndex(db: Db, slots: seq<Slot>, written: set<Pubkey>, clean: Option<Slot>, mark: bool,
                                      p: Pair)
    requires Core(db) && (forall i, j :: 0 <= i < j < |slots| ==> slots[i] > slots[j])
    requires forall x | x in slots :: CanFlush(db, x)
    requires slots != [] ==> WrittenOk(db.index, db.ever, written, slots[0], db.cleaned)
    ensures var db' := FlushSlots(db, slots, written, clean, mark);
      if p in db.index then EntryFlushed(db, db', slots, written, clean, mark, p) else p !in db'.index
    decreases slots
  {
    if slots != [] {
      var slot, cleans := slots[0], Cleans(clean, slots[0]);
      var db1, written1 := FlushSlot(db, slot, written, cleans, mark), NowWritten(db.cache, slot, written, cleans);
      assert slot in slots;
      FlushSlotKeeps(db, slot, written, cleans, mark);
      FlushSlotEffect(db, slot, written, cleans, mark);
      if |slots| > 1 { FlushWritten(db, slot, written, cleans, mark, slots[1]); }
      forall x | x in slots[1..] ensures CanFlush(db1, x) && x < slot {
        var i :| 0 <= i < |slots| - 1 && slots[1..][i] == x;
        assert slots[i + 1] == x && x in slots;
      }
      hide FlushSlot, NowWritten, Core, WrittenOk, FlushSlots;
      BatchIndex(db1, slots[1..], written1, clean, mark, p);
      EntryNext(db, db1, FlushSlots(db1, slots[1..], written1, clean, mark), slots, written, clean, mark, p);
    }
  }

  /** The batch has a version of the key in a slot above `x` that it cleans. */
  ghost predicate HasNewer(cache: Cache, ever: set<Slot>, upTo: Slot, clean: Option<Slot>, x: Slot, k: Pubkey) {
    clean.Some? && exists y | y in cache :: y in ever && x < y <= upTo && y <= clean.value && k in cache[y]
  }

  lemma WritesExactly(db: Db, slots: seq<Slot>, upTo: Slot, clean: Option<Slot>, x: Slot, k: Pubkey)
    requires IsBatch(db, slots, upTo) && x in slots
    ensures BatchWrites(db.cache, slots, {}, clean, x, k) <==>
      k in db.cache[x] && !(clean.Some? && x <= clean.value && HasNewer(db.cache, db.ever, upTo, clean, x, k))
  {}

  lemma ReclaimsExactly(db: Db, slots: seq<Slot>, upTo: Slot, clean: Option<Slot>, mark: bool, p: Pair)
    requires IsBatch(db, slots, upTo)
    ensures BatchReclaims(db, slots, {}, clean, mark, p) <==> mark && HasNewer(db.cache, db.ever, upTo, clean, p.1, p.0)
  {
    if mark && HasNewer(db.cache, db.ever, upTo, clean, p.1, p.0) {
      var newer := set y | y in db.cache && y in db.ever && p.1 < y <= upTo && y <= clean.value && p.0 in db.cache[y];
      var y :| y in db.cache && y in db.ever && p.1 < y <= upTo && y <= clean.value && p.0 in db.cache[y];
      assert y in newer;
      var m := Sets.MaxOf(newer);
      assert m in slots;
      forall z | z in slots && z in db.cache && p.0 in db.cache[z] && Cleans(clean, z) ensures z <= m {
        assert z > p.1 ==> z in newer;
      }
      assert BatchWrites(db.cache, slots, {}, clean, m, p.0);
    }
  }

  /** What a flush does to one cached version of a root up to the bound: it reaches the slot's storage and its entry
      points there, unless the flush cleans the slot and has a newer version to write. */
  lemma FlushedVersion(db: Db, slots: seq<Slot>, upTo: Slot, clean: Option<Slot>, mark: bool, x: Slot, k: Pubkey)
    requires Inv(db) && IsBatch(db, slots, upTo) && x in db.cache && x in db.ever && x <= upTo && k in db.cache[x]
    ensures var db' := FlushSlots(db, slots, {}, clean, mark);
      && ((x in db'.stores && k in db'.stores[x].accounts) <==>
            !(clean.Some? && x <= clean.value && HasNewer(db.cache, db.ever, upTo, clean, x, k)))
      && (x in db'.stores && k in db'.stores[x].accounts ==> db'.stores[x].accounts[k] == db.cache[x][k])
      && ((k, x) in db'.index <==> x in db'.stores && k in db'.stores[x].accounts)
      && ((k, x) in db'.index ==> db'.index[(k, x)].Stored?)
  {
    assert forall y | y in slots :: CanFlush(db, y) && y !in db.stores;
    FlushWritesOnce(db, slots, {}, clean, mark, x, k);
    WritesExactly(db, slots, upTo, clean, x, k);
    assert (k, x) in db.index;
    BatchIndex(db, slots, {}, clean, mark, (k, x));
    FlushKeeps(db, slots, upTo, clean, mark);
    FlushSlotsKeep(db, slots, {}, clean, mark);
    assert db.history[x][k] == db.cache[x][k];
  }

  /** What it does to every other entry: a stored one goes if the flush marks and has a newer version to write. */
  lemma FlushedEntry(db: Db, slots: seq<Slot>, upTo: Slot, clean: Option<Slot>, mark: bool, p: Pair)
    requires Inv(db) && IsBatch(db, slots, upTo) && !(p.1 in db.cache && p.1 in db.ever && p.1 <= upTo)
    ensures var db' := FlushSlots(db, slots, {}, clean, mark);
      && (p in db'.index <==>
            p in db.index &&
            !(mark && db.index[p].Stored? && HasNewer(db.cache, db.ever, upTo, clean, p.1, p.0)))
      && (p in db'.index ==> db'.index[p] == db.index[p])
  {
    BatchIndex(db, slots, {}, clean, mark, p);
    ReclaimsExactly(db, slots, upTo, clean, mark, p);
  }

  /** The flushed slots leave the cache, and only they. */
  lemma FlushedCache(db: Db, slots: seq<Slot>, upTo: Slot, clean: Option<Slot>, mark: bool, x: Slot)
    requires Inv(db) && IsBatch(db, slots, upTo)
    ensures var db' := FlushSlots(db, slots, {}, clean, mark);
      && (x in db'.cache <==> x in db.cache && !(x in db.ever && x <= upTo))
      && (x in db'.cache ==> db'.cache[x] == db.cache[x])
  {
    FlushSlotsKeep(db, slots, {}, clean, mark);
    FlushSparesCache(db, slots, {}, clean, mark, x);
  }

  lemma {:induction false} FlushSparesCache(db: Db, slots: seq<Slot>, written: set<Pubkey>, clean: Option<Slot>,
                                            mark: bool,
                                            x: Slot)
    ensures var db' := FlushSlots(db, slots, written, clean, mark);
      x in db'.cache ==> x in db.cache && db'.cache[x] == db.cache[x]
    decreases slots
  {
    if slots != [] {
      var cleans := Cleans(clean, slots[0]);
      FlushSparesCache(FlushSlot(db, slots[0], written, cleans, mark), slots[1..],
                       NowWritten(db.cache, slots[0], written, cleans), clean, mark, x);
    }
  }

  /** The whole flush. */
  lemma FlushEffect(db: Db, slots: seq<Slot>, upTo: Slot, clean: Option<Slot>, mark: bool)
    requires Inv(db) && IsBatch(db, slots, upTo)
    ensures var db' := FlushSlots(db, slots, {}, clean, mark);
      && (forall x :: x in db'.cache <==> x in db.cache && !(x in db.ever && x <= upTo))
      && (forall x | x in db'.cache :: db'.cache[x] == db.cache[x])
      && (forall x, k | x in db.cache && x in db.ever && x <= upTo && k in db.cache[x] ::
            && ((x in db'.stores && k in db'.stores[x].accounts) <==>
                  !(clean.Some? && x <= clean.value && HasNewer(db.cache, db.ever, upTo, clean, x, k)))
            && (x in db'.stores && k in db'.stores[x].accounts ==> db'.stores[x].accounts[k] == db.cache[x][k])
            && ((k, x) in db'.index <==> x in db'.stores && k in db'.stores[x].accounts)
            && ((k, x) in db'.index ==> db'.index[(k, x)].Stored?))
      && (forall p: Pair | !(p.1 in db.cache && p.1 in db.ever && p.1 <= upTo) ::
            && (p in db'.index <==>
                  p in db.index && !(mark && db.index[p].Stored? && HasNewer(db.cache, db.ever, upTo, clean, p.1, p.0)))
            && (p in db'.index ==> db'.index[p] == db.index[p]))
  {
    hide Inv, FlushSlots, IsBatch, HasNewer;
    var db' := FlushSlots(db, slots, {}, clean, mark);
    forall x: Slot
      ensures x in db'.cache <==> x in db.cache && !(x in db.ever && x <= upTo)
      ensures x in db'.cache ==> db'.cache[x] == db.cache[x]
    {
      FlushedCache(db, slots, upTo, clean, mark, x);
    }
    forall x: Slot, k: Pubkey | x in db.cache && x in db.ever && x <= upTo && k in db.cache[x]
      ensures (x in db'.stores && k in db'.stores[x].accounts) <==>
        !(clean.Some? && x <= clean.value && HasNewer(db.cache, db.ever, upTo, clean, x, k))
      ensures x in db'.stores && k in db'.stores[x].accounts ==> db'.stores[x].accounts[k] == db.cache[x][k]
      ensures (k, x) in db'.index <==> x in db'.stores && k in db'.stores[x].accounts
      ensures (k, x) in db'.index ==> db'.index[(k, x)].Stored?
    {
      FlushedVersion(db, slots, upTo, clean, mark, x, k);
    }
    forall p: Pair | !(p.1 in db.cache && p.1 in db.ever && p.1 <= upTo)
      ensures p in db'.index <==>
        p in db.index && !(mark && db.index[p].Stored? && HasNewer(db.cache, db.ever, upTo, clean, p.1, p.0))
      ensures p in db'.index ==> db'.index[p] == db.index[p]
    {
      FlushedEntry(db, slots, upTo, clean, mark, p);
    }
  }
}
