/**
 A run whose last flush leaves a reference too many. Keys 1 and 2 are stored in slot 1 and flushed; key 2 is stored
 again in slot 2, flushed, and its version in slot 1 is cleaned; then key 1 is stored in slot 3. Flushing slot 3 takes
 the last entry of slot 1 out of the index, so slot 1's storage goes, and with it the outdated record of key 2.
 */
module StrandedReference {
  import opened Types
  import opened Database
  import opened DatabaseInvariant
  import opened DatabaseTheorems
  import opened FlushReferences

  const ACCOUNT := Account(1, [])
  const BOTH: map<Pubkey, Account> := map[1 := ACCOUNT, 2 := ACCOUNT]
  const ONE: map<Pubkey, Account> := map[1 := ACCOUNT]
  const TWO: map<Pubkey, Account> := map[2 := ACCOUNT]

  const LAST := OpFlush([3], 3, Some(3), true)

  const STORED1 := Db(map[(1, 1) := Location.Cached, (2, 1) := Location.Cached], map[], {}, map[1 := BOTH], map[], {},
    map[1 := BOTH], 0)
  const ROOTED1 := STORED1.(roots := {1}, ever := {1})
  const FLUSHED1 := Db(map[(1, 1) := Location.Stored, (2, 1) := Location.Stored], map[1 := 1, 2 := 1], {1}, map[],
    map[1 := Store(BOTH, {})], {1}, map[1 := BOTH], 0)
  const STORED2 := FLUSHED1.(index := FLUSHED1.index[(2, 2) := Location.Cached], cache := map[2 := TWO],
    history := map[1 := BOTH, 2 := TWO])
  const ROOTED2 := STORED2.(roots := {1, 2}, ever := {1, 2})
  const FLUSHED2 := Db(map[(1, 1) := Location.Stored, (2, 1) := Location.Stored, (2, 2) := Location.Stored],
    map[1 := 1, 2 := 2], {1, 2}, map[],
    map[1 := Store(BOTH, {}), 2 := Store(TWO, {})], {1, 2}, map[1 := BOTH, 2 := TWO], 0)
  const CLEANED := FLUSHED2.(index := map[(1, 1) := Location.Stored, (2, 2) := Location.Stored], cleaned := 2)
  const STORED3 := CLEANED.(index := CLEANED.index[(1, 3) := Location.Cached], cache := map[3 := ONE],
    history := map[1 := BOTH, 2 := TWO, 3 := ONE])
  const ROOTED3 := STORED3.(roots := {1, 2, 3}, ever := {1, 2, 3})

  lemma Stores1()
    ensures StoreAccounts(EMPTY, 1, BOTH) == STORED1
  {
    assert Pairs(BOTH.Keys, 1) == {(1, 1), (2, 1)};
    assert CacheOf(EMPTY.cache, 1) + BOTH == BOTH;
    assert StoreAccounts(EMPTY, 1, BOTH).index == STORED1.index;
  }

  lemma Stores2()
    ensures StoreAccounts(FLUSHED1, 2, TWO) == STORED2
  {
    assert Pairs(TWO.Keys, 2) == {(2, 2)};
    assert CacheOf(FLUSHED1.cache, 2) + TWO == TWO;
    assert StoreAccounts(FLUSHED1, 2, TWO).index == STORED2.index;
  }

  lemma Stores3()
    ensures StoreAccounts(CLEANED, 3, ONE) == STORED3
  {
    assert Pairs(ONE.Keys, 3) == {(1, 3)};
    assert CacheOf(CLEANED.cache, 3) + ONE == ONE;
    assert StoreAccounts(CLEANED, 3, ONE).index == STORED3.index;
  }

  // ---------------------------------------------------------------- flushes without cleaning

  function PlainRefs(refs: Refs, write: set<Pubkey>): Refs {
    map k | k in refs.Keys + write :: if k in write then Ref(refs, k) + 1 else Ref(refs, k)
  }

  lemma NoReclaims(db: Db, slot: Slot)
    ensures FlushReclaims(db, slot, {}, false, true) == {} && FlushKills(db, slot, {}, false, true) == {}
    ensures Writes(db.cache, slot, {}, false) == CacheOf(db.cache, slot).Keys
    ensures Skipped(db.cache, slot, {}, false) == {}
  {
    forall x: Slot ensures KeysAt({}, x) == {} {}
  }

  lemma NothingMarked(stores: Stores)
    ensures MarkObsolete(stores, {}, {}) == stores
  {
    forall x | x in stores ensures Store(stores[x].accounts, stores[x].obsolete + KeysAt({}, x)) == stores[x] {
      assert KeysAt({}, x) == {};
    }
  }

  lemma NothingLost(refs: Refs, write: set<Pubkey>)
    ensures FlushRefs(refs, write, {}) == PlainRefs(refs, write)
  {
    forall k | k in write ensures |SlotsOf({}, k)| == 0 { assert SlotsOf({}, k) == {}; }
  }

  /** A flush without cleaning writes every cached version and reclaims nothing. */
  lemma PlainFlush(db: Db, slot: Slot)
    requires CacheOf(db.cache, slot).Keys != {}
    ensures var write := CacheOf(db.cache, slot);
      FlushSlots(db, [slot], {}, None, true) ==
        Db(FlushIndex(db.index, slot, {}, write.Keys, {}), PlainRefs(db.refs, write.Keys), db.roots, db.cache - {slot},
           db.stores[slot := Store(write, {})], db.ever, db.history, db.cleaned)
  {
    var write := CacheOf(db.cache, slot);
    assert [slot][1..] == [];
    NoReclaims(db, slot);
    NothingMarked(db.stores);
    NothingLost(db.refs, write.Keys);
    assert Restrict(write, write.Keys) == write;
    hide FlushIndex, FlushRefs, MarkObsolete, FlushKills, FlushReclaims, Writes, Skipped, PlainRefs, CacheOf, Restrict;
    assert db.roots - {} - {} == db.roots;
  }

  lemma FlushedIndex1()
    ensures FlushIndex(ROOTED1.index, 1, {}, {1, 2}, {}) == FLUSHED1.index
  {}

  lemma FlushedRefs1()
    ensures PlainRefs(map[], {1, 2}) == FLUSHED1.refs
  {}

  lemma Flushes1()
    ensures FlushSlots(ROOTED1, [1], {}, None, true) == FLUSHED1
  {
    assert BOTH.Keys == {1, 2} && ROOTED1.cache - {1} == map[];
    PlainFlush(ROOTED1, 1);
    FlushedIndex1();
    FlushedRefs1();
    hide FlushSlots, FlushIndex, PlainRefs;
  }

  lemma FlushedIndex2()
    ensures FlushIndex(ROOTED2.index, 2, {}, {2}, {}) == FLUSHED2.index
  {}

  lemma FlushedRefs2()
    ensures PlainRefs(FLUSHED1.refs, {2}) == FLUSHED2.refs
  {}

  lemma Flushes2()
    ensures FlushSlots(ROOTED2, [2], {}, None, true) == FLUSHED2
  {
    assert TWO.Keys == {2} && ROOTED2.cache - {2} == map[];
    PlainFlush(ROOTED2, 2);
    FlushedIndex2();
    FlushedRefs2();
    hide FlushSlots, FlushIndex, PlainRefs;
  }

  // ---------------------------------------------------------------- the clean

  lemma CleanDrops()
    ensures Older(FLUSHED2.index, FLUSHED2.roots, {2}, 2) == {(2, 1)}
  {
    assert (2, 2) in FLUSHED2.index;
    assert !IsNewestRooted(FLUSHED2.index, FLUSHED2.roots, (2, 1), 2);
  }

  /** A clean that leaves every storage an entry only drops entries. */
  lemma PlainClean(db: Db, keys: set<Pubkey>, bound: Slot, gone: set<Pair>, index: Index)
    requires gone == Older(db.index, db.roots, keys, bound) && index == map p | p in db.index && p !in gone ::
      db.index[p]
    requires Emptied(index, db.stores, gone) == {}
    ensures CleanOlder(db, keys, bound) == db.(index := index, cleaned := Max(db.cleaned, bound))
  {
    NoUnref(db.refs, db.stores);
    assert db.roots - {} == db.roots && db.stores - {} == db.stores;
  }

  lemma Cleans2()
    ensures CleanOlder(FLUSHED2, {2}, 2) == CLEANED
  {
    CleanDrops();
    hide Older, IsNewestRooted, CleanOlder, Emptied;
    assert CLEANED.index == map p | p in FLUSHED2.index && p !in {(2, 1)} :: FLUSHED2.index[p];
    NoStoreDies();
    PlainClean(FLUSHED2, {2}, 2, {(2, 1)}, CLEANED.index);
  }

  lemma NoStoreDies()
    ensures Emptied(CLEANED.index, FLUSHED2.stores, {(2, 1)}) == {}
  {
    assert (1, 1) in CLEANED.index && (2, 2) in CLEANED.index;
    assert (1, 1).1 == 1 && (2, 2).1 == 2;
  }

  lemma NoUnref(refs: Refs, stores: Stores)
    ensures Unref(refs, stores, {}, {}) == refs
  {
    forall k | k in refs ensures |Holders(stores, k) * {}| == 0 { assert Holders(stores, k) * {} == {}; }
  }

  // ---------------------------------------------------------------- the run

  ghost predicate RunsTo(dbs: seq<Db>, ops: seq<Op>, db: Db) {
    IsRun(dbs, ops) && dbs[|ops|] == db
  }

  lemma Extend(dbs: seq<Db>, ops: seq<Op>, db: Db, op: Op, next: Db)
    requires RunsTo(dbs, ops, db) && Can(db, op) && Apply(db, op) == next
    ensures RunsTo(dbs + [next], ops + [op], next)
  {
    var dbs', ops' := dbs + [next], ops + [op];
    forall i | 0 <= i < |ops'| ensures Can(dbs'[i], ops'[i]) && dbs'[i + 1] == Apply(dbs'[i], ops'[i]) {
      if i < |ops| { assert dbs[i + 1] == Apply(dbs[i], ops[i]); }
    }
  }

  lemma FirstSlot() returns (dbs: seq<Db>, ops: seq<Op>)
    ensures RunsTo(dbs, ops, FLUSHED1)
  {
    Stores1();
    Flushes1();
    hide StoreAccounts, FlushSlots, RunsTo;
    dbs, ops := [EMPTY], [];
    assert RunsTo(dbs, ops, EMPTY) by { Nothing(); }
    Extend(dbs, ops, EMPTY, OpStore(1, BOTH), STORED1);
    dbs, ops := dbs + [STORED1], ops + [OpStore(1, BOTH)];
    Extend(dbs, ops, STORED1, OpRoot(1), ROOTED1);
    dbs, ops := dbs + [ROOTED1], ops + [OpRoot(1)];
    Extend(dbs, ops, ROOTED1, OpFlush([1], 1, None, true), FLUSHED1);
    dbs, ops := dbs + [FLUSHED1], ops + [OpFlush([1], 1, None, true)];
  }

  lemma Nothing()
    ensures RunsTo([EMPTY], [], EMPTY)
  {}

  lemma SecondSlot() returns (dbs: seq<Db>, ops: seq<Op>)
    ensures RunsTo(dbs, ops, CLEANED)
  {
    dbs, ops := FirstSlot();
    Stores2();
    Flushes2();
    Cleans2();
    hide StoreAccounts, FlushSlots, CleanOlder, RunsTo;
    Extend(dbs, ops, FLUSHED1, OpStore(2, TWO), STORED2);
    dbs, ops := dbs + [STORED2], ops + [OpStore(2, TWO)];
    Extend(dbs, ops, STORED2, OpRoot(2), ROOTED2);
    dbs, ops := dbs + [ROOTED2], ops + [OpRoot(2)];
    Extend(dbs, ops, ROOTED2, OpFlush([2], 2, None, true), FLUSHED2);
    dbs, ops := dbs + [FLUSHED2], ops + [OpFlush([2], 2, None, true)];
    Extend(dbs, ops, FLUSHED2, OpCleanOlder({2}, 2), CLEANED);
    dbs, ops := dbs + [CLEANED], ops + [OpCleanOlder({2}, 2)];
  }

  lemma ThirdSlot() returns (dbs: seq<Db>, ops: seq<Op>)
    ensures RunsTo(dbs, ops, ROOTED3)
  {
    dbs, ops := SecondSlot();
    Stores3();
    hide StoreAccounts, RunsTo;
    Extend(dbs, ops, CLEANED, OpStore(3, ONE), STORED3);
    dbs, ops := dbs + [STORED3], ops + [OpStore(3, ONE)];
    Extend(dbs, ops, STORED3, OpRoot(3), ROOTED3);
    dbs, ops := dbs + [ROOTED3], ops + [OpRoot(3)];
  }

  // ---------------------------------------------------------------- the last flush

  lemma ExactBefore()
    ensures RefsExact(ROOTED3.refs, ROOTED3.stores)
  {
    var stores := ROOTED3.stores;
    forall k: Pubkey ensures |Holders(stores, k)| == Ref(ROOTED3.refs, k) {
      if k == 1 {
        assert Holders(stores, k) == {1};
      } else if k == 2 {
        assert Holders(stores, k) == {1, 2};
      } else {
        assert Holders(stores, k) == {};
      }
    }
  }

  lemma KeyTwoIsStranded()
    ensures BatchStrands(ROOTED3, [3], Some(3), true, 2)
  {
    assert AliveAt(ROOTED3.index, 1) == {1};
    assert 1 in CacheOf(ROOTED3.cache, 3) && 3 in [3];
    assert Strands(ROOTED3, 1, 2, CleanedKeys(ROOTED3.cache, [3], Some(3), 1));
  }

  lemma StrandingFlush(db: Db, slots: seq<Slot>, upTo: Slot, clean: Option<Slot>, k: Pubkey)
    requires Inv(db) && IsBatch(db, slots, upTo) && RefsExact(db.refs, db.stores) &&
      BatchStrands(db, slots, clean, true, k)
    ensures var db' := FlushSlots(db, slots, {}, clean, true); !RefsExact(db'.refs, db'.stores)
  {
    assert RefExact(db, k);
    FlushKeepsRefs(db, slots, upTo, clean, true, k);
    assert !RefExact(FlushSlots(db, slots, {}, clean, true), k);
  }

  lemma LastFlush(db: Db)
    requires Inv(db) && IsBatch(db, [3], 3) && RefsExact(db.refs, db.stores) && BatchStrands(db, [3], Some(3), true, 2)
    ensures Can(db, LAST) && var db' := Apply(db, LAST); !RefsExact(db'.refs, db'.stores)
  {
    hide Inv, BatchStrands, FlushSlots, RefsExact, IsBatch;
    StrandingFlush(db, [3], 3, Some(3), 2);
  }

  lemma LastBatch()
    ensures IsBatch(ROOTED3, [3], 3)
  {}

  /** After this run every reference count is exact, and one more flush leaves a reference too many. */
  lemma FlushMayLeaveReference() returns (dbs: seq<Db>, ops: seq<Op>, op: Op)
    ensures IsRun(dbs, ops) && RefsExact(dbs[|ops|].refs, dbs[|ops|].stores)
    ensures op.OpFlush? && Can(dbs[|ops|], op)
    ensures var db' := Apply(dbs[|ops|], op); !RefsExact(db'.refs, db'.stores)
  {
    dbs, ops := ThirdSlot();
    op := LAST;
    InvariantOfRuns(dbs, ops, |ops|);
    hide Inv, RefsExact, Can, Apply, BatchStrands, IsBatch;
    assert dbs[|ops|] == ROOTED3;
    ExactBefore();
    KeyTwoIsStranded();
    LastBatch();
    LastFlush(ROOTED3);
  }
}
