/**
 Reference counts through a flush. A flush that marks obsolete accounts can remove a storage that still holds an
 outdated record of some other key, and nothing takes that key's reference back. The module proves exactly when.
 */
module FlushReferences {
  import opened Types
  import opened Database
  import opened DatabaseInvariant
  import opened DatabaseProof
  import opened DatabaseTheorems

  ghost predicate RefExact(db: Db, k: Pubkey) {
    |Holders(db.stores, k)| == Ref(db.refs, k)
  }

  /** Slot `x` holds an outdated record of `k`, and the keys alive there are all among `keys`. */
  ghost predicate Strands(db: Db, x: Slot, k: Pubkey, keys: set<Pubkey>) {
    && HoldsKey(db.stores, x, k) && (k, x) !in db.index
    && AliveAt(db.index, x) != {} && AliveAt(db.index, x) <= keys
  }

  // ---------------------------------------------------------------- one slot

  /** The keys whose older stored versions the flush of `slot` reclaims. */
  function Reclaiming(cache: Cache, slot: Slot, written: set<Pubkey>, clean: bool, mark: bool): set<Pubkey> {
    if clean && mark then Writes(cache, slot, written, clean) else {}
  }

  lemma StoredAt(db: Db, p: Pair)
    requires CacheMatches(db.index, db.cache) && StoresOk(db.stores, db.cache, db.ever, db.history)
    requires p in db.index && p.1 in db.stores
    ensures p.0 in AliveAt(db.index, p.1) && db.index[p].Stored?
  {
    assert p == (p.0, p.1);
  }

  lemma AliveAfter(db: Db, slot: Slot, written: set<Pubkey>, clean: bool, mark: bool, x: Slot)
    requires x < slot
    ensures AliveAt(FlushSlot(db, slot, written, clean, mark).index, x) ==
      AliveAt(db.index, x) - Reclaiming(db.cache, slot, written, clean, mark)
  {
    var index' := FlushSlot(db, slot, written, clean, mark).index;
    forall k ensures k in AliveAt(index', x) <==>
      k in AliveAt(db.index, x) && k !in Reclaiming(db.cache, slot, written, clean, mark)
    {
      assert (k, x) in index' <==> (k, x) in db.index && (k, x) !in FlushReclaims(db, slot, written, clean, mark);
    }
  }

  /** Which storages a flush removes, by the state before it. */
  lemma KillsExactly(db: Db, slot: Slot, written: set<Pubkey>, clean: bool, mark: bool, x: Slot)
    requires Core(db) && CanFlush(db, slot)
    ensures x in FlushKills(db, slot, written, clean, mark) <==>
      x in db.stores && x < slot && AliveAt(db.index, x) != {} &&
      AliveAt(db.index, x) <= Reclaiming(db.cache, slot, written, clean, mark)
  {
    var reclaims, keys := FlushReclaims(db, slot, written, clean, mark),
      Reclaiming(db.cache, slot, written, clean, mark);
    var index' := FlushedIndex(db, slot, written, clean, mark);
    if x in db.stores {
      assert x != slot;
      forall k ensures k in KeysAt(reclaims, x) <==> x < slot && k in AliveAt(db.index, x) && k in keys {
        assert (k, x) in reclaims <==> x < slot && k in AliveAt(db.index, x) && k in keys;
      }
      forall p | p in db.index && p.1 == x ensures p.0 in AliveAt(db.index, x) && (p in index' <==> p !in reclaims) {
        StoredAt(db, p);
      }
      forall k | k in AliveAt(db.index, x) ensures (k, x) in db.index {}
      if x in FlushKills(db, slot, written, clean, mark) {
        forall k | k in AliveAt(db.index, x) ensures k in keys { assert (k, x).1 == x && (k, x) in reclaims; }
      }
    }
  }

  /** The flush of one slot leaves a reference too many exactly when it strands an outdated record. */
  lemma FlushKeepsRef(db: Db, slot: Slot, written: set<Pubkey>, clean: bool, mark: bool, k: Pubkey)
    requires Core(db) && CanFlush(db, slot) && RefExact(db, k)
    ensures RefExact(FlushSlot(db, slot, written, clean, mark), k) <==>
      forall x: Slot | x < slot :: !Strands(db, x, k, Reclaiming(db.cache, slot, written, clean, mark))
  {
    var keys := Reclaiming(db.cache, slot, written, clean, mark);
    var dead, reclaims := FlushKills(db, slot, written, clean, mark), FlushReclaims(db, slot, written, clean, mark);
    var left := Holders(db.stores, k) * dead - SlotsOf(reclaims, k);
    FlushRef(db, slot, written, clean, mark, k);
    forall x: Slot ensures x in left <==> x < slot && Strands(db, x, k, keys) {
      KillsExactly(db, slot, written, clean, mark, x);
      if x in Holders(db.stores, k) * dead {
        assert k in AliveAt(db.index, x) <==> (k, x) in reclaims;
        if (k, x) in db.index { StoredAt(db, (k, x)); }
      }
    }
    hide FlushSlot, FlushKills, FlushReclaims, Strands, Reclaiming;
    if left != {} {
      var x :| x in left;
      assert Strands(db, x, k, keys);
    }
  }

  // ---------------------------------------------------------------- a whole batch

  /** The keys that cleaned slots of the batch above `x` have in the cache. */
  ghost function CleanedKeys(cache: Cache, slots: seq<Slot>, clean: Option<Slot>, x: Slot): set<Pubkey> {
    set y, k | y in slots && x < y && Cleans(clean, y) && k in CacheOf(cache, y) :: k
  }

  /** A record of the key goes with its storage although it was not reclaimed. */
  ghost predicate BatchStrands(db: Db, slots: seq<Slot>, clean: Option<Slot>, mark: bool, k: Pubkey) {
    mark && exists x: Slot :: Strands(db, x, k, CleanedKeys(db.cache, slots, clean, x))
  }

  /** No key the batch has written has a stored version below the slots that are left. */
  ghost predicate WrittenReclaimed(index: Index, written: set<Pubkey>, slot: Slot) {
    forall p: Pair | p in index && index[p].Stored? && p.0 in written :: p.1 >= slot
  }

  lemma WrittenReclaimedNext(db: Db, slot: Slot, written: set<Pubkey>, clean: bool, next: Slot)
    requires WrittenReclaimed(db.index, written, slot) && next < slot
    ensures WrittenReclaimed(FlushSlot(db, slot, written, clean, true).index,
      NowWritten(db.cache, slot, written, clean), next)
  {}

  lemma CleanedKeysNext(cache: Cache, slots: seq<Slot>, clean: Option<Slot>, x: Slot)
    requires slots != [] && forall i, j :: 0 <= i < j < |slots| ==> slots[i] > slots[j]
    ensures CleanedKeys(cache, slots, clean, x) ==
      (if x < slots[0] && Cleans(clean, slots[0]) then CacheOf(cache, slots[0]).Keys else {})
        + CleanedKeys(cache - {slots[0]}, slots[1..], clean, x)
    ensures slots[0] <= x ==> CleanedKeys(cache, slots, clean, x) == {}
  {
    var rest, cache' := slots[1..], cache - {slots[0]};
    forall y | y in rest ensures y in slots && y < slots[0] && CacheOf(cache', y) == CacheOf(cache, y) {
      var i :| 0 <= i < |rest| && rest[i] == y;
      assert slots[i + 1] == y;
    }
    forall y | y in slots ensures y == slots[0] || y in rest {
      var i :| 0 <= i < |slots| && slots[i] == y;
      assert i > 0 ==> rest[i - 1] == y;
    }
    forall k | k in CacheOf(cache, slots[0]) && x < slots[0] && Cleans(clean, slots[0])
      ensures k in CleanedKeys(cache, slots, clean, x) {
      assert slots[0] in slots;
    }
  }

  /** A record stranded by the rest of the batch is one stranded by the batch, unless this flush did it. */
  lemma StrandsNext(db: Db, slots: seq<Slot>, written: set<Pubkey>, clean: Option<Slot>, x: Slot, k: Pubkey)
    requires Core(db) && slots != [] && CanFlush(db, slots[0]) && WrittenReclaimed(db.index, written, slots[0])
    requires forall i, j :: 0 <= i < j < |slots| ==> slots[i] > slots[j]
    ensures var slot, cleans := slots[0], Cleans(clean, slots[0]);
      var db1 := FlushSlot(db, slot, written, cleans, true);
      Strands(db, x, k, CleanedKeys(db.cache, slots, clean, x)) <==>
        || (x < slot && Strands(db, x, k, Reclaiming(db.cache, slot, written, cleans, true)))
        || Strands(db1, x, k, CleanedKeys(db1.cache, slots[1..], clean, x))
  {
    var slot, cleans := slots[0], Cleans(clean, slots[0]);
    var db1 := FlushSlot(db, slot, written, cleans, true);
    var keys := Reclaiming(db.cache, slot, written, cleans, true);
    CleanedKeysNext(db.cache, slots, clean, x);
    if x < slot {
      AliveAfter(db, slot, written, cleans, true, x);
      KillsExactly(db, slot, written, cleans, true, x);
      FlushHolds(db, slot, written, cleans, true, k, x);
      assert AliveAt(db.index, x) * keys ==
        AliveAt(db.index, x) * (if cleans then CacheOf(db.cache, slot).Keys else {}) by {
        forall j | j in AliveAt(db.index, x) ensures j !in written { assert (j, x).1 < slot; }
      }
      assert (k, x) in db1.index <==> (k, x) in db.index && (k, x) !in FlushReclaims(db, slot, written, cleans, true);
      StrandsStep(db, db1, x, k, keys, if cleans then CacheOf(db.cache, slot).Keys
        else {}, CleanedKeys(db1.cache, slots[1..], clean, x),
                  x in FlushKills(db, slot, written, cleans, true),
                    (k, x) in FlushReclaims(db, slot, written, cleans, true));
    } else {
      assert CleanedKeys(db1.cache, slots[1..], clean, x) == {};
    }
  }

  lemma StrandsStep(db: Db, db1: Db, x: Slot, k: Pubkey, keys: set<Pubkey>, now: set<Pubkey>, rest: set<Pubkey>,
                    killed: bool, reclaimed: bool)
    requires AliveAt(db1.index, x) == AliveAt(db.index, x) - keys &&
      AliveAt(db.index, x) * keys == AliveAt(db.index, x) * now
    requires killed <==> x in db.stores && AliveAt(db.index, x) != {} && AliveAt(db.index, x) <= keys
    requires HoldsKey(db1.stores, x, k) <==> HoldsKey(db.stores, x, k) && !reclaimed && !killed
    requires (k, x) in db1.index <==> (k, x) in db.index && !reclaimed
    requires reclaimed ==> (k, x) in db.index
    ensures Strands(db, x, k, now + rest) <==> Strands(db, x, k, keys) || Strands(db1, x, k, rest)
  {
    var alive := AliveAt(db.index, x);
    assert alive <= now + rest <==> alive - keys <= rest by {
      forall j | j in alive ensures j in keys <==> j in now {
        assert j in alive * keys <==> j in alive * now;
      }
    }
    assert alive - keys == {} <==> alive <= keys;
  }

  /** A batch in progress: the slots that are left, and what it has written. */
  ghost predicate BatchOk(db: Db, slots: seq<Slot>, written: set<Pubkey>, mark: bool) {
    && Core(db) && (forall x | x in slots :: CanFlush(db, x))
    && (forall i, j :: 0 <= i < j < |slots| ==> slots[i] > slots[j])
    && (slots != [] ==> WrittenOk(db.index, db.ever, written, slots[0], db.cleaned))
    && (slots != [] && mark ==> WrittenReclaimed(db.index, written, slots[0]))
  }

  lemma BatchNext(db: Db, slots: seq<Slot>, written: set<Pubkey>, clean: Option<Slot>, mark: bool)
    requires BatchOk(db, slots, written, mark) && slots != []
    ensures var slot, cleans := slots[0], Cleans(clean, slots[0]);
      var db1, written1 := FlushSlot(db, slot, written, cleans, mark), NowWritten(db.cache, slot, written, cleans);
      && BatchOk(db1, slots[1..], written1, mark)
      && FlushSlots(db, slots, written, clean, mark) == FlushSlots(db1, slots[1..], written1, clean, mark)
  {
    var slot, cleans := slots[0], Cleans(clean, slots[0]);
    FlushSlotKeeps(db, slot, written, cleans, mark);
    forall x | x in slots[1..] ensures x in slots && x < slot {
      var i :| 0 <= i < |slots| - 1 && slots[1..][i] == x;
      assert slots[i + 1] == x;
    }
    hide Core;
    if |slots| > 1 {
      FlushWritten(db, slot, written, cleans, mark, slots[1]);
      if mark { WrittenReclaimedNext(db, slot, written, cleans, slots[1]); }
    }
  }

  /** The surplus of a reference count never shrinks in a flush. */
  lemma {:induction false} SurplusStays(db: Db, slots: seq<Slot>, written: set<Pubkey>, clean: Option<Slot>, mark: bool,
                                        k: Pubkey)
    requires BatchOk(db, slots, written, mark) && !RefExact(db, k)
    ensures !RefExact(FlushSlots(db, slots, written, clean, mark), k)
    decreases slots
  {
    if slots != [] {
      var slot, cleans := slots[0], Cleans(clean, slots[0]);
      assert |Holders(db.stores, k)| <= Ref(db.refs, k);
      FlushRef(db, slot, written, cleans, mark, k);
      hide FlushSlot, FlushSlots, NowWritten, BatchOk;
      BatchNext(db, slots, written, clean, mark);
      SurplusStays(FlushSlot(db, slot, written, cleans, mark), slots[1..], NowWritten(db.cache, slot, written, cleans),
        clean, mark, k);
    }
  }

  /** The first flush of a marking batch: whether it strands a record now, or the rest does. */
  lemma BatchStrandsNext(db: Db, slots: seq<Slot>, written: set<Pubkey>, clean: Option<Slot>, k: Pubkey)
    requires Core(db) && slots != [] && CanFlush(db, slots[0]) && WrittenReclaimed(db.index, written, slots[0])
    requires forall i, j :: 0 <= i < j < |slots| ==> slots[i] > slots[j]
    ensures var slot, cleans := slots[0], Cleans(clean, slots[0]);
      var db1 := FlushSlot(db, slot, written, cleans, true);
      BatchStrands(db, slots, clean, true, k) <==>
        || (exists x: Slot :: x < slot && Strands(db, x, k, Reclaiming(db.cache, slot, written, cleans, true)))
        || BatchStrands(db1, slots[1..], clean, true, k)
  {
    var slot, cleans := slots[0], Cleans(clean, slots[0]);
    var db1 := FlushSlot(db, slot, written, cleans, true);
    hide Core, CanFlush, FlushSlot, Strands, Reclaiming, CleanedKeys, WrittenReclaimed;
    forall x: Slot ensures Strands(db, x, k, CleanedKeys(db.cache, slots, clean, x)) <==>
        || (x < slot && Strands(db, x, k, Reclaiming(db.cache, slot, written, cleans, true)))
        || Strands(db1, x, k, CleanedKeys(db1.cache, slots[1..], clean, x))
    {
      StrandsNext(db, slots, written, clean, x, k);
    }
  }

  /** The count is exact after the first flush unless that flush strands a record. */
  lemma FirstOfBatch(db: Db, slots: seq<Slot>, written: set<Pubkey>, clean: Option<Slot>, mark: bool, k: Pubkey)
    requires BatchOk(db, slots, written, mark) && slots != [] && RefExact(db, k)
    ensures var db1 := FlushSlot(db, slots[0], written, Cleans(clean, slots[0]), mark);
      BatchStrands(db, slots, clean, mark, k) <==> !RefExact(db1, k) || BatchStrands(db1, slots[1..], clean, mark, k)
  {
    var slot, cleans := slots[0], Cleans(clean, slots[0]);
    FlushKeepsRef(db, slot, written, cleans, mark, k);
    assert !mark ==> Reclaiming(db.cache, slot, written, cleans, mark) == {};
    hide FlushSlot, Core, CanFlush, RefExact, Reclaiming, CleanedKeys, WrittenReclaimed, WrittenOk;
    if mark {
      BatchStrandsNext(db, slots, written, clean, k);
    }
  }

  lemma {:induction false} BatchKeepsRef(db: Db, slots: seq<Slot>, written: set<Pubkey>, clean: Option<Slot>,
                                         mark: bool, k: Pubkey)
    requires BatchOk(db, slots, written, mark) && RefExact(db, k)
    ensures RefExact(FlushSlots(db, slots, written, clean, mark), k) <==> !BatchStrands(db, slots, clean, mark, k)
    decreases slots
  {
    if slots == [] {
      NothingToStrand(db, clean, mark, k);
    } else {
      hide FlushSlot, FlushSlots, NowWritten, BatchOk, BatchStrands, RefExact;
      var slot, cleans := slots[0], Cleans(clean, slots[0]);
      var db1, written1 := FlushSlot(db, slot, written, cleans, mark), NowWritten(db.cache, slot, written, cleans);
      FirstOfBatch(db, slots, written, clean, mark, k);
      BatchNext(db, slots, written, clean, mark);
      if RefExact(db1, k) {
        BatchKeepsRef(db1, slots[1..], written1, clean, mark, k);
      } else {
        SurplusStays(db1, slots[1..], written1, clean, mark, k);
      }
    }
  }

  lemma NothingToStrand(db: Db, clean: Option<Slot>, mark: bool, k: Pubkey)
    ensures !BatchStrands(db, [], clean, mark, k)
  {
    assert forall x: Slot :: CleanedKeys(db.cache, [], clean, x) == {};
  }

  /** A flush of the rooted cache keeps a key's exact reference count exact if and only if no storage that holds an
      outdated record of the key has all its alive keys in the cached slots that are cleaned. */
  lemma FlushKeepsRefs(db: Db, slots: seq<Slot>, upTo: Slot, clean: Option<Slot>, mark: bool, k: Pubkey)
    requires Inv(db) && IsBatch(db, slots, upTo) && RefExact(db, k)
    ensures RefExact(FlushSlots(db, slots, {}, clean, mark), k) <==> !BatchStrands(db, slots, clean, mark, k)
  {
    BatchKeepsRef(db, slots, {}, clean, mark, k);
  }
}
