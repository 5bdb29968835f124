/**
 What a load and a restart return, told by the log of operations and by lamports alone: the account of the last store
 into the newest visible slot if it has lamports, and nothing otherwise.
 */
module WriteLog {
  import opened Types
  import Sets
  import opened Database
  import opened DatabaseInvariant
  import opened DatabaseTheorems
  import opened NewestRecords

  // ---------------------------------------------------------------- by the history of writes

  /** What the history of rooted and forked writes says of a key. */
  lemma ShouldLoadByLamports(history: Cache, ever: set<Slot>, ancestors: set<Slot>, bound: Slot, k: Pubkey,
                             r: Option<Account>)
    requires ShouldLoad(history, ever, ancestors, bound, k, r)
    ensures forall x | IsLatestWrite(history, ever, ancestors, bound, k, x) ::
      r == if history[x][k].lamports > 0 then Some(history[x][k]) else None
    ensures (forall x | x in history && k in history[x] :: x !in ancestors && (x in ever ==> x > bound)) ==> r == None
  {}

  /** After any run, a load returns the newest visible write if it has lamports, and nothing otherwise. */
  lemma LoadsByLamports(dbs: seq<Db>, ops: seq<Op>, i: nat, ancestors: set<Slot>, bound: Slot, k: Pubkey,
                        r: Option<Account>)
    requires IsRun(dbs, ops) && i < |dbs| && OnFork(dbs[i].ever, ancestors, bound) && dbs[i].cleaned <= bound
    requires Loads(dbs[i], ancestors, bound, k, r)
    ensures forall x | IsLatestWrite(dbs[i].history, dbs[i].ever, ancestors, bound, k, x) ::
      r == if dbs[i].history[x][k].lamports > 0 then Some(dbs[i].history[x][k]) else None
    ensures (forall x | x in dbs[i].history && k in dbs[i].history[x] ::
               x !in ancestors && (x in dbs[i].ever ==> x > bound)) ==> r == None
  {
    LoadsTheNewestWrite(dbs, ops, i, ancestors, bound, k, r);
    ShouldLoadByLamports(dbs[i].history, dbs[i].ever, ancestors, bound, k, r);
  }

  /** A restart takes the newest record of a key if it has lamports, and nothing otherwise. */
  lemma RebuildsByLamports(stores: Stores, k: Pubkey, r: Option<Account>)
    requires Rebuilds(stores, k, r)
    ensures forall n | IsNewestRecord(stores, k, n) ::
      r == if stores[n].accounts[k].lamports > 0 then Some(stores[n].accounts[k]) else None
    ensures (forall x | x in stores && k in stores[x].accounts :: k in stores[x].obsolete) ==> r == None
  {}

  // ---------------------------------------------------------------- the log of operations

  predicate Rooted(ops: seq<Op>, x: Slot) { OpRoot(x) in ops }

  predicate IsStoreOf(op: Op, x: Slot, k: Pubkey) { op.OpStore? && op.slot == x && k in op.accounts }

  predicate IsPurgeOf(op: Op, x: Slot) { op == OpPurgeSlot(x) }

  /** The store of this key into this slot that no later store or purge of the slot replaced. */
  ghost predicate IsLastStore(ops: seq<Op>, j: nat, x: Slot, k: Pubkey) {
    && j < |ops| && IsStoreOf(ops[j], x, k)
    && forall i | j < i < |ops| :: !IsStoreOf(ops[i], x, k) && !IsPurgeOf(ops[i], x)
  }

  ghost predicate HasStore(ops: seq<Op>, x: Slot, k: Pubkey) {
    exists j: nat :: IsLastStore(ops, j, x, k)
  }

  /** No operation dropped older versions for a root above the bound. */
  ghost predicate CleansUpTo(ops: seq<Op>, bound: Slot) {
    forall i | 0 <= i < |ops| :: CleanUpTo(ops[i], bound)
  }

  predicate CleanUpTo(op: Op, bound: Slot) {
    && ((op.OpCleanOlder? || op.OpPurgeZero?) ==> op.bound <= bound)
    && (op.OpFlush? && op.clean.Some? ==> forall x | x in op.slots && x <= op.clean.value :: x <= bound)
  }

  /** The database's history, roots and cleaned root are those of the log. */
  ghost predicate Logged(db: Db, ops: seq<Op>) {
    && (forall x: Slot :: x in db.ever <==> Rooted(ops, x))
    && (forall x: Slot, k: Pubkey :: x in db.history && k in db.history[x] <==> HasStore(ops, x, k))
    && (forall x: Slot, k: Pubkey, j: nat | IsLastStore(ops, j, x, k) ::
          x in db.history && k in db.history[x] && db.history[x][k] == ops[j].accounts[k])
    && (forall bound: Slot | CleansUpTo(ops, bound) :: db.cleaned <= bound)
  }

  lemma LastStoreBefore(ops: seq<Op>, op: Op, j: nat, x: Slot, k: Pubkey)
    requires j < |ops|
    ensures IsLastStore(ops + [op], j, x, k) <==> IsLastStore(ops, j, x, k) && !IsStoreOf(op, x, k) && !IsPurgeOf(op, x)
  {
    var all := ops + [op];
    assert all[|ops|] == op;
    assert forall i | 0 <= i < |ops| :: all[i] == ops[i];
  }

  lemma LastStoreNow(ops: seq<Op>, op: Op, x: Slot, k: Pubkey)
    ensures IsLastStore(ops + [op], |ops|, x, k) <==> IsStoreOf(op, x, k)
  {}

  lemma HasStoreNext(ops: seq<Op>, op: Op, x: Slot, k: Pubkey)
    ensures HasStore(ops + [op], x, k) <==> IsStoreOf(op, x, k) || (HasStore(ops, x, k) && !IsPurgeOf(op, x))
  {
    LastStoreNow(ops, op, x, k);
    if HasStore(ops, x, k) && !IsStoreOf(op, x, k) && !IsPurgeOf(op, x) {
      var j: nat :| IsLastStore(ops, j, x, k);
      LastStoreBefore(ops, op, j, x, k);
    }
    if HasStore(ops + [op], x, k) && !IsStoreOf(op, x, k) {
      var j: nat :| IsLastStore(ops + [op], j, x, k);
      LastStoreBefore(ops, op, j, x, k);
    }
  }

  /** What one operation does to the history, by the operation itself. */
  ghost predicate HistoryNext(db: Db, op: Op, db': Db) {
    && (forall x: Slot :: x in db'.ever <==> x in db.ever || op == OpRoot(x))
    && (forall x: Slot, k: Pubkey :: x in db'.history && k in db'.history[x] <==>
          IsStoreOf(op, x, k) || (x in db.history && k in db.history[x] && !IsPurgeOf(op, x)))
    && (forall x: Slot, k: Pubkey | IsStoreOf(op, x, k) :: db'.history[x][k] == op.accounts[k])
    && (forall x: Slot, k: Pubkey | x in db'.history && k in db'.history[x] && !IsStoreOf(op, x, k) ::
          db'.history[x][k] == db.history[x][k])
    && (forall bound: Slot | CleanUpTo(op, bound) && db.cleaned <= bound :: db'.cleaned <= bound)
  }

  lemma {:induction false} FlushCleansUpTo(db: Db, slots: seq<Slot>, written: set<Pubkey>, clean: Option<Slot>,
                                           mark: bool,
                                           bound: Slot)
    requires db.cleaned <= bound && (clean.Some? ==> forall x | x in slots && x <= clean.value :: x <= bound)
    ensures var db' := FlushSlots(db, slots, written, clean, mark);
      db'.cleaned <= bound && db'.history == db.history && db'.ever == db.ever
    decreases slots
  {
    if slots != [] {
      var cleans := Cleans(clean, slots[0]);
      assert slots[0] in slots && forall x | x in slots[1..] :: x in slots;
      FlushCleansUpTo(FlushSlot(db, slots[0], written, cleans, mark), slots[1..],
                      NowWritten(db.cache, slots[0], written, cleans), clean, mark, bound);
    }
  }

  lemma FlushHistoryNext(db: Db, op: Op)
    requires op.OpFlush? && Inv(db) && Can(db, op)
    ensures HistoryNext(db, op, Apply(db, op))
  {
    var db' := Apply(db, op);
    SameWrites(db, op);
    forall bound: Slot | CleanUpTo(op, bound) && db.cleaned <= bound ensures db'.cleaned <= bound {
      FlushCleansUpTo(db, op.slots, {}, op.clean, op.mark, bound);
    }
  }

  lemma StoreHistoryNext(db: Db, slot: Slot, accounts: map<Pubkey, Account>)
    requires CacheHistory(db.cache, db.ever, db.history) && CanStore(db, slot)
    ensures HistoryNext(db, OpStore(slot, accounts), StoreAccounts(db, slot, accounts))
  {
    assert CacheOf(db.cache, slot) == CacheOf(db.history, slot);
  }

  lemma PurgeHistoryNext(db: Db, slot: Slot)
    ensures HistoryNext(db, OpPurgeSlot(slot), PurgeSlot(db, slot))
  {}

  lemma OperationHistoryNext(db: Db, op: Op)
    requires Inv(db) && Can(db, op)
    ensures HistoryNext(db, op, Apply(db, op))
  {
    match op
    case OpStore(slot, accounts) => StoreHistoryNext(db, slot, accounts);
    case OpRoot(slot) =>
    case OpPurgeSlot(slot) => PurgeHistoryNext(db, slot);
    case OpFlush(_, _, _, _) => FlushHistoryNext(db, op);
    case _ => BackgroundHistoryNext(db, op);
  }

  lemma BackgroundHistoryNext(db: Db, op: Op)
    requires Can(db, op) && (op.OpCleanOlder? || op.OpPurgeZero? || op.OpShrink?)
    ensures HistoryNext(db, op, Apply(db, op))
  {
    hide CanPurgeZero, CanShrink, Unref, Emptied, Older, RootedUpTo;
  }

  lemma LoggedNext(db: Db, ops: seq<Op>, op: Op, db': Db)
    requires Logged(db, ops) && HistoryNext(db, op, db')
    ensures Logged(db', ops + [op])
  {
    forall x: Slot, k: Pubkey ensures x in db'.history && k in db'.history[x] <==> HasStore(ops + [op], x, k) {
      HasStoreNext(ops, op, x, k);
    }
    forall x: Slot, k: Pubkey, j: nat | IsLastStore(ops + [op], j, x, k)
      ensures x in db'.history && k in db'.history[x] && db'.history[x][k] == (ops + [op])[j].accounts[k]
    {
      assert HasStore(ops + [op], x, k);
      if j < |ops| { LastStoreBefore(ops, op, j, x, k); }
    }
    forall bound: Slot | CleansUpTo(ops + [op], bound) ensures db'.cleaned <= bound {
      assert (ops + [op])[|ops|] == op;
      assert forall i | 0 <= i < |ops| :: (ops + [op])[i] == ops[i];
      assert CleansUpTo(ops, bound);
    }
  }

  lemma NothingLogged()
    ensures Logged(EMPTY, [])
  {}

  lemma {:induction false} LogOfRuns(dbs: seq<Db>, ops: seq<Op>, i: nat)
    requires IsRun(dbs, ops) && i < |dbs|
    ensures Logged(dbs[i], ops[..i])
  {
    hide Logged, HistoryNext, Apply, Can, Inv;
    if i == 0 {
      NothingLogged();
      assert ops[..0] == [];
    } else {
      LogOfRuns(dbs, ops, i - 1);
      InvariantOfRuns(dbs, ops, i - 1);
      assert dbs[i - 1 + 1] == Apply(dbs[i - 1], ops[i - 1]);
      OperationHistoryNext(dbs[i - 1], ops[i - 1]);
      assert ops[..i] == ops[..i - 1] + [ops[i - 1]];
      LoggedNext(dbs[i - 1], ops[..i - 1], ops[i - 1], dbs[i]);
    }
  }

  // ---------------------------------------------------------------- loads and restarts

  ghost predicate SeenAt(ops: seq<Op>, ancestors: set<Slot>, bound: Slot, x: Slot) {
    x in ancestors || (Rooted(ops, x) && x <= bound)
  }

  /** The last store into the newest slot that the load sees. */
  ghost predicate IsLatestStore(ops: seq<Op>, ancestors: set<Slot>, bound: Slot, k: Pubkey, x: Slot, j: nat) {
    && IsLastStore(ops, j, x, k) && SeenAt(ops, ancestors, bound, x)
    && forall y: Slot | HasStore(ops, y, k) && SeenAt(ops, ancestors, bound, y) :: y <= x
  }

  /** What the log says of a key: the account of the last store into the newest slot seen, if it has lamports. */
  ghost predicate IsAnswer(ops: seq<Op>, ancestors: set<Slot>, bound: Slot, k: Pubkey, r: Option<Account>) {
    && (forall x: Slot, j: nat | IsLatestStore(ops, ancestors, bound, k, x, j) ::
          r == if ops[j].accounts[k].lamports > 0 then Some(ops[j].accounts[k]) else None)
    && ((forall x: Slot | HasStore(ops, x, k) :: !SeenAt(ops, ancestors, bound, x)) ==> r == None)
  }

  lemma ShouldLoadIsAnswer(db: Db, ops: seq<Op>, ancestors: set<Slot>, bound: Slot, k: Pubkey, r: Option<Account>)
    requires Logged(db, ops) && ShouldLoad(db.history, db.ever, ancestors, bound, k, r)
    ensures IsAnswer(ops, ancestors, bound, k, r)
  {
    ShouldLoadByLamports(db.history, db.ever, ancestors, bound, k, r);
    hide IsLastStore;
    forall x: Slot, j: nat | IsLatestStore(ops, ancestors, bound, k, x, j)
      ensures r == if ops[j].accounts[k].lamports > 0 then Some(ops[j].accounts[k]) else None
    {
      assert IsLatestWrite(db.history, db.ever, ancestors, bound, k, x);
    }
  }

  /** The unrooted slots of a fork are newer than every root, and its rooted ones are within the bound. */
  ghost predicate IsFork(ops: seq<Op>, ancestors: set<Slot>, bound: Slot) {
    && (forall x: Slot, y: Slot | x in ancestors && !Rooted(ops, x) && Rooted(ops, y) :: y < x)
    && (forall x | x in ancestors && Rooted(ops, x) :: x <= bound)
  }

  /** After any run, a load returns what the log of its operations says. */
  lemma LoadsTheLastStore(dbs: seq<Db>, ops: seq<Op>, ancestors: set<Slot>, bound: Slot, k: Pubkey, r: Option<Account>)
    requires IsRun(dbs, ops) && Loads(dbs[|ops|], ancestors, bound, k, r)
    requires IsFork(ops, ancestors, bound) && CleansUpTo(ops, bound)
    ensures IsAnswer(ops, ancestors, bound, k, r)
  {
    var db := dbs[|ops|];
    LogOfRuns(dbs, ops, |ops|);
    assert ops[..|ops|] == ops;
    assert OnFork(db.ever, ancestors, bound) && db.cleaned <= bound;
    LoadsTheNewestWrite(dbs, ops, |ops|, ancestors, bound, k, r);
    ShouldLoadIsAnswer(db, ops, ancestors, bound, k, r);
  }

  /** After any run, a restart from the storages returns what the log says of the roots up to the snapshot. */
  lemma RestartsWithTheLastStore(dbs: seq<Db>, ops: seq<Op>, bound: Slot, k: Pubkey, r: Option<Account>)
    requires IsTimelyRun(dbs, ops) && Rebuilds(dbs[|ops|].stores, k, r) && CleansUpTo(ops, bound)
    requires forall x | x in dbs[|ops|].stores :: x <= bound
    requires forall x | x in dbs[|ops|].cache && Rooted(ops, x) :: x > bound
    ensures IsAnswer(ops, {}, bound, k, r)
  {
    var db := dbs[|ops|];
    LogOfRuns(dbs, ops, |ops|);
    assert ops[..|ops|] == ops;
    SnapshotSeesTheSame(dbs, ops, |ops|, bound, k, r);
    ShouldLoadIsAnswer(db, ops, {}, bound, k, r);
  }

  /** The log has one answer. */
  lemma OneAnswer(ops: seq<Op>, ancestors: set<Slot>, bound: Slot, k: Pubkey, r: Option<Account>, r': Option<Account>)
    requires IsAnswer(ops, ancestors, bound, k, r) && IsAnswer(ops, ancestors, bound, k, r')
    ensures r == r'
  {
    hide IsLastStore;
    if x: Slot :| HasStore(ops, x, k) && SeenAt(ops, ancestors, bound, x) {
      var y := NewestSeen(ops, ancestors, bound, k, x);
      var j: nat :| IsLastStore(ops, j, y, k);
      assert IsLatestStore(ops, ancestors, bound, k, y, j);
    }
  }

  lemma NewestSeen(ops: seq<Op>, ancestors: set<Slot>, bound: Slot, k: Pubkey, x: Slot) returns (y: Slot)
    requires HasStore(ops, x, k) && SeenAt(ops, ancestors, bound, x)
    ensures HasStore(ops, y, k) && SeenAt(ops, ancestors, bound, y)
    ensures forall z: Slot | HasStore(ops, z, k) && SeenAt(ops, ancestors, bound, z) :: z <= y
  {
    var slots := set i | 0 <= i < |ops| && ops[i].OpStore? && HasStore(ops, ops[i].slot, k) &&
      SeenAt(ops, ancestors, bound, ops[i].slot) :: ops[i].slot;
    forall z: Slot | HasStore(ops, z, k) && SeenAt(ops, ancestors, bound, z) ensures z in slots {
      var j: nat :| IsLastStore(ops, j, z, k);
      assert ops[j].slot == z;
    }
    y := Sets.MaxOf(slots);
  }
}
