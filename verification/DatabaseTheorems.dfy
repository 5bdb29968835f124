/**
 What holds after every run of the accounts database: loads see the last rooted write whatever was flushed,
 cleaned, purged or shrunk in between, and so does a restart from the storages alone.
 */
module DatabaseTheorems {
  import opened Types
  import Sets
  import opened Database
  import opened DatabaseInvariant
  import opened DatabaseProof

  // ---------------------------------------------------------------- runs

  datatype Op =
    | OpStore(slot: Slot, accounts: map<Pubkey, Account>)
    | OpRoot(slot: Slot)
    | OpPurgeSlot(slot: Slot)
    | OpFlush(slots: seq<Slot>, upTo: Slot, clean: Option<Slot>, mark: bool)
    | OpCleanOlder(keys: set<Pubkey>, bound: Slot)
    | OpPurgeZero(keys: set<Pubkey>, bound: Slot)
    | OpShrink(slot: Slot, zero: set<Pubkey>)

  predicate Can(db: Db, op: Op) {
    match op
    case OpStore(slot, _) => CanStore(db, slot)
    case OpRoot(slot) => CanAddRoot(db, slot)
    case OpPurgeSlot(slot) => CanPurgeSlot(db, slot)
    case OpFlush(slots, upTo, _, _) => IsBatch(db, slots, upTo)
    case OpCleanOlder(_, _) => true
    case OpPurgeZero(keys, bound) => CanPurgeZero(db, keys, bound)
    case OpShrink(slot, zero) => CanShrink(db, slot, zero)
  }

  function Apply(db: Db, op: Op): Db
    requires Can(db, op)
  {
    match op
    case OpStore(slot, accounts) => StoreAccounts(db, slot, accounts)
    case OpRoot(slot) => AddRoot(db, slot)
    case OpPurgeSlot(slot) => PurgeSlot(db, slot)
    case OpFlush(slots, _, clean, mark) => FlushSlots(db, slots, {}, clean, mark)
    case OpCleanOlder(keys, bound) => CleanOlder(db, keys, bound)
    case OpPurgeZero(keys, bound) => PurgeZero(db, keys, bound)
    case OpShrink(slot, zero) => Shrink(db, slot, zero)
  }

  lemma OperationKeeps(db: Db, op: Op)
    requires Inv(db) && Can(db, op)
    ensures Inv(Apply(db, op))
  {
    match op
    case OpStore(slot, accounts) => StoreAccountsKeeps(db, slot, accounts);
    case OpRoot(slot) => AddRootKeeps(db, slot);
    case OpPurgeSlot(slot) => PurgeSlotKeeps(db, slot);
    case OpFlush(slots, upTo, clean, mark) => FlushKeeps(db, slots, upTo, clean, mark);
    case OpCleanOlder(keys, bound) => CleanOlderKeeps(db, keys, bound);
    case OpPurgeZero(keys, bound) => PurgeZeroKeeps(db, keys, bound);
    case OpShrink(slot, zero) => ShrinkKeeps(db, slot, zero);
  }

  ghost predicate IsRun(dbs: seq<Db>, ops: seq<Op>) {
    && |dbs| == |ops| + 1 && dbs[0] == EMPTY
    && forall i :: 0 <= i < |ops| ==> Can(dbs[i], ops[i]) && dbs[i + 1] == Apply(dbs[i], ops[i])
  }

  lemma {:induction false} InvariantOfRuns(dbs: seq<Db>, ops: seq<Op>, i: nat)
    requires IsRun(dbs, ops) && i < |dbs|
    ensures Inv(dbs[i])
  {
    if i == 0 {
      forall k: Pubkey ensures |Holders(EMPTY.stores, k)| <= Ref(EMPTY.refs, k) { assert Holders(EMPTY.stores, k) ==
        {}; }
    } else {
      InvariantOfRuns(dbs, ops, i - 1);
      assert dbs[i - 1 + 1] == Apply(dbs[i - 1], ops[i - 1]);
      OperationKeeps(dbs[i - 1], ops[i - 1]);
    }
  }

  // ---------------------------------------------------------------- loads

  /** A slot is visible to a load as an ancestor or as a root up to the load's bound; a load without a bound
      is one whose bound is above every slot. */
  predicate Visible(roots: set<Slot>, ancestors: set<Slot>, bound: Slot, x: Slot) {
    x in ancestors || (x in roots && x <= bound)
  }

  ghost predicate IsLatest(index: Index, roots: set<Slot>, ancestors: set<Slot>, bound: Slot, k: Pubkey, x: Slot) {
    && (k, x) in index && Visible(roots, ancestors, bound, x)
    && forall p | p in index && p.0 == k && Visible(roots, ancestors, bound, p.1) :: p.1 <= x
  }

  /** A zero-lamport account is not returned. */
  function NonZero(a: Account): Option<Account> {
    if a.IsZeroLamport() then None else Some(a)
  }

  function AccountAt(db: Db, p: Pair): Option<Account> {
    if p !in db.index then None
    else if db.index[p].Cached? then
      if p.1 in db.cache && p.0 in db.cache[p.1] then NonZero(db.cache[p.1][p.0]) else None
    else
      if p.1 in db.stores && p.0 in db.stores[p.1].accounts then NonZero(db.stores[p.1].accounts[p.0]) else None
  }

  /** What a load returns: the newest visible version. */
  ghost predicate Loads(db: Db, ancestors: set<Slot>, bound: Slot, k: Pubkey, r: Option<Account>) {
    || (r.None? && forall p | p in db.index && p.0 == k :: !Visible(db.roots, ancestors, bound, p.1))
    || (exists x :: IsLatest(db.index, db.roots, ancestors, bound, k, x) && r == AccountAt(db, (k, x)))
  }

  /** The newest visible write, by the history of writes alone. */
  ghost predicate IsLatestWrite(history: Cache, ever: set<Slot>, ancestors: set<Slot>, bound: Slot, k: Pubkey,
                                x: Slot) {
    && x in history && k in history[x] && Visible(ever, ancestors, bound, x)
    && forall y | y in history && k in history[y] && Visible(ever, ancestors, bound, y) :: y <= x
  }

  ghost predicate ShouldLoad(history: Cache, ever: set<Slot>, ancestors: set<Slot>, bound: Slot, k: Pubkey,
                             r: Option<Account>) {
    || (r.None? && forall x | x in history && k in history[x] :: !Visible(ever, ancestors, bound, x))
    || (exists x :: IsLatestWrite(history, ever, ancestors, bound, k, x) && r == NonZero(history[x][k]))
  }

  /** The unrooted slots of a fork are newer than every root, and its rooted ones are within the bound. */
  ghost predicate OnFork(ever: set<Slot>, ancestors: set<Slot>, bound: Slot) {
    && (forall x, y | x in ancestors && x !in ever && y in ever :: y < x)
    && (forall x | x in ancestors && x in ever :: x <= bound)
  }

  lemma ShouldLoadOne(history: Cache, ever: set<Slot>, ancestors: set<Slot>, bound: Slot, k: Pubkey, r: Option<Account>,
                      r': Option<Account>)
    requires ShouldLoad(history, ever, ancestors, bound, k, r) && ShouldLoad(history, ever, ancestors, bound, k, r')
    ensures r == r'
  {}

  lemma HasNewestWrite(history: Cache, ever: set<Slot>, k: Pubkey, x: Slot, bound: Slot) returns (m: Slot)
    requires x in ever && x <= bound && x in history && k in history[x]
    ensures IsNewestWrite(history, ever, k, m, bound)
  {
    var writes := set y | y in ever && y <= bound && y in history && k in history[y];
    assert x in writes;
    m := Sets.MaxOf(writes);
    forall y | y in ever && y <= bound && y in history && k in history[y] ensures y <= m { assert y in writes; }
  }

  lemma HasLatest(db: Db, ancestors: set<Slot>, bound: Slot, k: Pubkey) returns (r: Option<Account>)
    ensures Loads(db, ancestors, bound, k, r)
  {
    var visible := set p | p in db.index && p.0 == k && Visible(db.roots, ancestors, bound, p.1);
    var slots := SlotsOf(visible, k);
    if slots == {} {
      r := None;
      forall p | p in db.index && p.0 == k ensures !Visible(db.roots, ancestors, bound, p.1) {
        assert p == (k, p.1);
        assert p.1 !in slots;
      }
    } else {
      var x := Sets.MaxOf(slots);
      assert (k, x) in visible;
      forall p | p in db.index && p.0 == k && Visible(db.roots, ancestors, bound, p.1) ensures p.1 <= x {
        assert p == (k, p.1);
        assert p.1 in slots;
      }
      assert IsLatest(db.index, db.roots, ancestors, bound, k, x);
      r := AccountAt(db, (k, x));
    }
  }

  /** An unrooted write is in the cache and in the index. */
  lemma UnrootedWrite(db: Db, k: Pubkey, x: Slot)
    requires x in db.history && k in db.history[x] && x !in db.ever
    requires CacheMatches(db.index, db.cache) && CacheHistory(db.cache, db.ever, db.history)
    ensures (k, x) in db.index && AccountAt(db, (k, x)) == NonZero(db.history[x][k])
  {
    assert x in db.cache && k in db.cache[x];
  }

  lemma EntryAccount(db: Db, p: Pair)
    requires p in db.index
    requires CacheMatches(db.index, db.cache) && StoredMatches(db.index, db.stores)
    requires StoresOk(db.stores, db.cache, db.ever, db.history) && CacheHistory(db.cache, db.ever, db.history)
    ensures p.1 in db.history && p.0 in db.history[p.1] && AccountAt(db, p) == NonZero(db.history[p.1][p.0])
  {}

  /** If the index shows a rooted version as the newest, it is the newest write. */
  lemma LatestIsLatestWrite(db: Db, ancestors: set<Slot>, bound: Slot, k: Pubkey, x: Slot)
    requires Core(db) && OnFork(db.ever, ancestors, bound) && db.cleaned <= bound &&
      IsLatest(db.index, db.roots, ancestors, bound, k, x)
    ensures IsLatestWrite(db.history, db.ever, ancestors, bound, k, x)
  {
    EntryAccount(db, (k, x));
    if x in db.ever {
      var m := HasNewestWrite(db.history, db.ever, k, x, bound);
      assert (k, m) in db.index;
    }
    forall y | y in db.history && k in db.history[y] && Visible(db.ever, ancestors, bound, y) ensures y <= x {
      if y !in db.ever { UnrootedWrite(db, k, y); }
    }
  }

  /** If the index shows nothing, there is nothing, or the newest write is zero-lamport. */
  lemma NothingIsNothing(db: Db, ancestors: set<Slot>, bound: Slot, k: Pubkey)
    requires Core(db) && OnFork(db.ever, ancestors, bound) && db.cleaned <= bound
    requires forall p | p in db.index && p.0 == k :: !Visible(db.roots, ancestors, bound, p.1)
    ensures ShouldLoad(db.history, db.ever, ancestors, bound, k, None)
  {
    forall y | y in db.history && k in db.history[y] && y !in db.ever ensures !Visible(db.ever, ancestors, bound, y) {
      UnrootedWrite(db, k, y);
    }
    if y :| y in db.history && k in db.history[y] && y in db.ever && y <= bound {
      var m := HasNewestWrite(db.history, db.ever, k, y, bound);
      assert (k, m) !in db.index;
      assert IsLatestWrite(db.history, db.ever, ancestors, bound, k, m);
    }
  }

  /** After any run, a load returns the newest visible write. */
  lemma LoadsTheNewestWrite(dbs: seq<Db>, ops: seq<Op>, i: nat, ancestors: set<Slot>, bound: Slot, k: Pubkey,
                            r: Option<Account>)
    requires IsRun(dbs, ops) && i < |dbs| && OnFork(dbs[i].ever, ancestors, bound) && dbs[i].cleaned <= bound &&
      Loads(dbs[i], ancestors, bound, k, r)
    ensures ShouldLoad(dbs[i].history, dbs[i].ever, ancestors, bound, k, r)
  {
    InvariantOfRuns(dbs, ops, i);
    LoadAgrees(dbs[i], ancestors, bound, k, r);
  }

  lemma LoadAgrees(db: Db, ancestors: set<Slot>, bound: Slot, k: Pubkey, r: Option<Account>)
    requires Core(db) && OnFork(db.ever, ancestors, bound) && db.cleaned <= bound && Loads(db, ancestors, bound, k, r)
    ensures ShouldLoad(db.history, db.ever, ancestors, bound, k, r)
  {
    if x :| IsLatest(db.index, db.roots, ancestors, bound, k, x) && r == AccountAt(db, (k, x)) {
      LatestIsLatestWrite(db, ancestors, bound, k, x);
      EntryAccount(db, (k, x));
    } else {
      NothingIsNothing(db, ancestors, bound, k);
    }
  }

  /** Flushing, cleaning, purging zero-lamport keys and shrinking change no load. */
  lemma BackgroundKeepsLoads(db: Db, op: Op, ancestors: set<Slot>, bound: Slot, k: Pubkey, r: Option<Account>)
    requires Inv(db) && Can(db, op) && !op.OpStore? && !op.OpRoot? && !op.OpPurgeSlot?
    requires OnFork(db.ever, ancestors, bound) && db.cleaned <= bound
    requires Apply(db, op).cleaned <= bound
    ensures Loads(db, ancestors, bound, k, r) <==> Loads(Apply(db, op), ancestors, bound, k, r)
  {
    var db' := Apply(db, op);
    OperationKeeps(db, op);
    SameWrites(db, op);
    var now := HasLatest(db, ancestors, bound, k);
    var later := HasLatest(db', ancestors, bound, k);
    LoadAgrees(db, ancestors, bound, k, now);
    LoadAgrees(db', ancestors, bound, k, later);
    ShouldLoadOne(db.history, db.ever, ancestors, bound, k, now, later);
    if Loads(db, ancestors, bound, k, r) {
      LoadAgrees(db, ancestors, bound, k, r);
      ShouldLoadOne(db.history, db.ever, ancestors, bound, k, r, now);
    }
    if Loads(db', ancestors, bound, k, r) {
      LoadAgrees(db', ancestors, bound, k, r);
      ShouldLoadOne(db.history, db.ever, ancestors, bound, k, r, now);
    }
  }

  lemma SameWrites(db: Db, op: Op)
    requires Inv(db) && Can(db, op) && !op.OpStore? && !op.OpRoot? && !op.OpPurgeSlot?
    ensures Apply(db, op).history == db.history && Apply(db, op).ever == db.ever
  {
    if op.OpFlush? { FlushSlotsKeep(db, op.slots, {}, op.clean, op.mark); }
  }

  // ---------------------------------------------------------------- restart

  /** The newest record of a key in the storages, which is all that a restart sees. */
  ghost predicate IsNewestRecord(stores: Stores, k: Pubkey, n: Slot) {
    HoldsKey(stores, n, k) && forall x: Slot | HoldsKey(stores, x, k) :: x <= n
  }

  ghost predicate Rebuilds(stores: Stores, k: Pubkey, r: Option<Account>) {
    || (r.None? && forall x: Slot :: !HoldsKey(stores, x, k))
    || (exists n :: IsNewestRecord(stores, k, n) && r == NonZero(stores[n].accounts[k]))
  }

  /** Once every root is flushed, a restart from the storages gives each key its newest rooted write:
      no purged account comes back and none is lost. */
  lemma RestartSeesTheSame(dbs: seq<Db>, ops: seq<Op>, i: nat, bound: Slot, k: Pubkey, r: Option<Account>)
    requires IsRun(dbs, ops) && i < |dbs| && Rebuilds(dbs[i].stores, k, r)
    requires forall x | x in dbs[i].cache :: x !in dbs[i].ever
    requires dbs[i].cleaned <= bound && forall x | x in dbs[i].ever :: x <= bound
    ensures ShouldLoad(dbs[i].history, dbs[i].ever, {}, bound, k, r)
  {
    InvariantOfRuns(dbs, ops, i);
    RebuildAgrees(dbs[i], bound, k, r);
  }

  lemma RebuildAgrees(db: Db, bound: Slot, k: Pubkey, r: Option<Account>)
    requires Core(db) && Rebuilds(db.stores, k, r)
    requires forall x | x in db.cache :: x !in db.ever
    requires db.cleaned <= bound && forall x | x in db.ever :: x <= bound
    ensures ShouldLoad(db.history, db.ever, {}, bound, k, r)
  {
    if n :| IsNewestRecord(db.stores, k, n) && r == NonZero(db.stores[n].accounts[k]) {
      NewestRecordIsLatest(db, bound, k, n);
      LatestIsLatestWrite(db, {}, bound, k, n);
      EntryAccount(db, (k, n));
    } else {
      forall p | p in db.index && p.0 == k ensures !Visible(db.roots, {}, bound, p.1) {
        assert p.1 in db.roots ==> HoldsKey(db.stores, p.1, k);
      }
      NothingIsNothing(db, {}, bound, k);
    }
  }

  lemma NewestRecordIsLatest(db: Db, bound: Slot, k: Pubkey, n: Slot)
    requires Core(db) && IsNewestRecord(db.stores, k, n)
    requires forall x | x in db.cache :: x !in db.ever
    requires db.cleaned <= bound && forall x | x in db.ever :: x <= bound
    ensures IsLatest(db.index, db.roots, {}, bound, k, n)
  {
    assert Covered(db.index, db.ever, k, n);
    var p :| p in db.index && p.0 == k && p.1 in db.ever && n <= p.1;
    assert HoldsKey(db.stores, p.1, k);
    assert p == (k, n);
    forall q | q in db.index && q.0 == k && Visible(db.roots, {}, bound, q.1) ensures q.1 <= n {
      assert HoldsKey(db.stores, q.1, k);
    }
  }

  // ---------------------------------------------------------------- reference counts

  /** The reference count is the number of storages that hold the key. */
  ghost predicate RefsExact(refs: Refs, stores: Stores) {
    forall k :: |Holders(stores, k)| == Ref(refs, k)
  }

  lemma UnrefExact(refs: Refs, stores: Stores, dead: set<Slot>, removed: set<Pubkey>, k: Pubkey)
    requires |Holders(stores, k)| == Ref(refs, k)
    requires k in removed ==> Holders(stores, k) <= dead
    ensures |Holders(stores - dead, k)| == Ref(Unref(refs, stores, dead, removed), k)
  {
    var before, after := Holders(stores, k), Holders(stores - dead, k);
    assert after == before - dead;
    assert before == after + (before * dead);
  }

  /** Cleaning keeps exact reference counts exact. */
  lemma CleanKeepsRefs(db: Db, keys: set<Pubkey>, bound: Slot)
    requires RefsExact(db.refs, db.stores)
    ensures RefsExact(CleanOlder(db, keys, bound).refs, CleanOlder(db, keys, bound).stores)
  {
    var db' := CleanOlder(db, keys, bound);
    var dead := Emptied(db'.index, db.stores, Older(db.index, db.roots, keys, bound));
    forall k: Pubkey ensures |Holders(db'.stores, k)| == Ref(db'.refs, k) {
      assert |Holders(db.stores, k)| == Ref(db.refs, k);
      UnrefExact(db.refs, db.stores, dead, {}, k);
    }
  }

  lemma PurgeKeepsRefs(db: Db, keys: set<Pubkey>, bound: Slot)
    requires Core(db) && RefsExact(db.refs, db.stores) && CanPurgeZero(db, keys, bound)
    ensures RefsExact(PurgeZero(db, keys, bound).refs, PurgeZero(db, keys, bound).stores)
  {
    var db' := PurgeZero(db, keys, bound);
    var gone := RootedUpTo(db.index, db.roots, keys, bound);
    var removed := Removed(db.index, gone, keys);
    var dead := Emptied(db'.index, db.stores, gone);
    forall k: Pubkey ensures |Holders(db'.stores, k)| == Ref(db'.refs, k) {
      assert |Holders(db.stores, k)| == Ref(db.refs, k);
      if k in removed { RemovedEverywhere(db, keys, bound, k); }
      UnrefExact(db.refs, db.stores, dead, removed, k);
    }
  }

  lemma ShrinkKeepsRefs(db: Db, slot: Slot, zero: set<Pubkey>)
    requires CanShrink(db, slot, zero) && StoredMatches(db.index, db.stores) && RefsExact(db.refs, db.stores)
    ensures RefsExact(Shrink(db, slot, zero).refs, Shrink(db, slot, zero).stores)
  {
    forall k: Pubkey ensures |Holders(Shrink(db, slot, zero).stores, k)| == Ref(Shrink(db, slot, zero).refs, k) {
      assert |Holders(db.stores, k)| == Ref(db.refs, k);
      ShrunkRef(db, slot, zero, k);
    }
  }

  // ---------------------------------------------------------------- what a flush writes

  /** Does a batch write the version of `k` at `x`? Above the clean root it writes every version, up to it only the
      newest, and nothing the batch had already written. */
  ghost predicate BatchWrites(cache: Cache, slots: seq<Slot>, written: set<Pubkey>, clean: Option<Slot>, x: Slot,
                              k: Pubkey) {
    && x in slots && x in cache && k in cache[x]
    && (Cleans(clean, x) ==>
          k !in written && forall y | y in slots && y in cache && k in cache[y] && Cleans(clean, y) :: y <= x)
  }

  /** A flush writes exactly one version of each key among the slots it cleans, and every version of the others. */
  lemma {:induction false} FlushWritesOnce(db: Db, slots: seq<Slot>, written: set<Pubkey>, clean: Option<Slot>,
                                           mark: bool, x: Slot, k: Pubkey)
    requires forall i, j :: 0 <= i < j < |slots| ==> slots[i] > slots[j]
    requires forall y | y in slots :: CanFlush(db, y) && y !in db.stores
    requires x in slots
    ensures var db' := FlushSlots(db, slots, written, clean, mark);
      (x in db'.stores && k in db'.stores[x].accounts) <==> BatchWrites(db.cache, slots, written, clean, x, k)
    decreases slots
  {
    var slot, cleans := slots[0], Cleans(clean, slots[0]);
    var db1, written1 := FlushSlot(db, slot, written, cleans, mark), NowWritten(db.cache, slot, written, cleans);
    forall i | 0 < i < |slots| ensures slots[i] in slots[1..] &&
      slots[i] < slot { assert slots[i] == slots[1..][i - 1]; }
    assert forall y | y in slots[1..] :: y in slots && y < slot;
    OneFlush(db, slot, written, cleans, mark, k);
    if x == slot {
      LaterFlushesSpare(db1, slots[1..], written1, clean, mark, slot, k);
    } else {
      assert forall y | y in slots[1..] ::
        CanFlush(db1, y) && y !in db1.stores by { FlushKeepsOthers(db, slot, written, cleans, mark); }
      FlushWritesOnce(db1, slots[1..], written1, clean, mark, x, k);
      NextWrites(db.cache, slots, written, clean, x, k);
    }
  }

  lemma OneFlush(db: Db, slot: Slot, written: set<Pubkey>, clean: bool, mark: bool, k: Pubkey)
    requires CanFlush(db, slot) && slot !in db.stores
    ensures var db' := FlushSlot(db, slot, written, clean, mark);
      (slot in db'.stores && k in db'.stores[slot].accounts) <==> k in db.cache[slot] && (clean ==> k !in written)
  {
    hide FlushKills, FlushReclaims, FlushedIndex;
    var write := Writes(db.cache, slot, written, clean);
    assert k in write <==> k in db.cache[slot] && (clean ==> k !in written);
    assert k in Restrict(CacheOf(db.cache, slot), write) <==> k in write;
  }

  lemma FlushKeepsOthers(db: Db, slot: Slot, written: set<Pubkey>, clean: bool, mark: bool)
    ensures var db' := FlushSlot(db, slot, written, clean, mark);
      && (forall y | y in db'.stores :: y in db.stores || y == slot)
      && db'.cache == db.cache - {slot} && db'.ever == db.ever
  {}

  /** Flushing lower slots leaves the records of a higher one. */
  lemma {:induction false} LaterFlushesSpare(db: Db, slots: seq<Slot>, written: set<Pubkey>, clean: Option<Slot>,
                                             mark: bool, x: Slot, k: Pubkey)
    requires forall y | y in slots :: y < x
    ensures var db' := FlushSlots(db, slots, written, clean, mark);
      (x in db'.stores && k in db'.stores[x].accounts) <==> (x in db.stores && k in db.stores[x].accounts)
    decreases slots
  {
    if slots != [] {
      var slot, cleans := slots[0], Cleans(clean, slots[0]);
      assert slot in slots && forall y | y in slots[1..] :: y in slots;
      FlushSpares(db, slot, written, cleans, mark, x, k);
      LaterFlushesSpare(FlushSlot(db, slot, written, cleans, mark), slots[1..],
        NowWritten(db.cache, slot, written, cleans), clean, mark, x, k);
    }
  }

  lemma FlushSpares(db: Db, slot: Slot, written: set<Pubkey>, clean: bool, mark: bool, x: Slot, k: Pubkey)
    requires slot < x
    ensures var db' := FlushSlot(db, slot, written, clean, mark);
      (x in db'.stores && k in db'.stores[x].accounts) <==> (x in db.stores && k in db.stores[x].accounts)
  {
    var reclaims := FlushReclaims(db, slot, written, clean, mark);
    assert KeysAt(reclaims, x) == {} by { forall j ensures j !in KeysAt(reclaims, x) { assert (j, x) !in reclaims; } }
    assert x !in FlushKills(db, slot, written, clean, mark);
  }

  lemma NextWrites(cache: Cache, slots: seq<Slot>, written: set<Pubkey>, clean: Option<Slot>, x: Slot, k: Pubkey)
    requires slots != [] && x in slots[1..] && slots[0] in cache && forall y | y in slots[1..] :: y < slots[0]
    ensures BatchWrites(cache - {slots[0]}, slots[1..], NowWritten(cache, slots[0], written, Cleans(clean, slots[0])),
      clean, x, k)
      <==> BatchWrites(cache, slots, written, clean, x, k)
  {
    assert slots == [slots[0]] + slots[1..];
    assert forall y :: y in slots <==> y == slots[0] || y in slots[1..];
  }
}
