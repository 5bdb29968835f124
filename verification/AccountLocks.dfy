/**
 Account read and write locks of transactions in flight: the strict path, which also keeps the transactions of
 one batch apart, and the relaxed one of SIMD-0083, which only keeps batches apart.
 */
module AccountLocks {
  import opened Types

  datatype Lock = Lock(key: Pubkey, writable: bool)
  datatype Error = AccountInUse | TooManyAccountLocks | AccountLoadedTwice | Earlier(code: nat)
  datatype Result = Ok | Err(error: Error)
  /** A transaction of a batch: its locks, or the error it already has. */
  datatype Attempt = Keys(keys: seq<Lock>) | Failed(error: Error)

  // ---------------------------------------------------------------- specification

  ghost predicate Conflict(a: Lock, b: Lock) {
    a.key == b.key && (a.writable || b.writable)
  }

  ghost predicate Conflicts(a: seq<Lock>, b: seq<Lock>) {
    exists i, j :: 0 <= i < |a| && 0 <= j < |b| && Conflict(a[i], b[j])
  }

  /** A lock that is held conflicts with one of the keys. */
  ghost predicate Blocks(held: multiset<Lock>, keys: seq<Lock>) {
    exists l, j :: l in held && 0 <= j < |keys| && Conflict(l, keys[j])
  }

  /** Nothing held conflicts with the lock. */
  ghost predicate FreeLock(held: multiset<Lock>, lock: Lock) {
    held[Lock(lock.key, true)] == 0 && (lock.writable ==> held[Lock(lock.key, false)] == 0)
  }

  ghost predicate Free(held: multiset<Lock>, keys: seq<Lock>) {
    forall i :: 0 <= i < |keys| ==> FreeLock(held, keys[i])
  }

  /** A transaction is let in if what is held leaves its keys free. */
  ghost function Outcome(held: multiset<Lock>, attempt: Attempt): Result {
    match attempt
    case Failed(e) => Err(e)
    case Keys(keys) => if Free(held, keys) then Ok else Err(AccountInUse)
  }

  ghost function Taken(attempt: Attempt, result: Result): multiset<Lock> {
    if attempt.Keys? && result.Ok? then multiset(attempt.keys) else multiset{}
  }

  /** What the successes of a batch hold. */
  ghost function TakenAll(batch: seq<Attempt>, results: seq<Result>): multiset<Lock>
    requires |results| == |batch|
  {
    if batch == [] then multiset{}
    else
      var n := |batch| - 1;
      TakenAll(batch[..n], results[..n]) + Taken(batch[n], results[n])
  }

  /** Relaxed: every transaction is judged by what was held before the batch. */
  ghost function RelaxedResults(held: multiset<Lock>, batch: seq<Attempt>): (r: seq<Result>)
    ensures |r| == |batch|
  {
    seq(|batch|, i requires 0 <= i < |batch| => Outcome(held, batch[i]))
  }

  /** Strict: every transaction is also judged by what the earlier ones of its batch took. */
  ghost function StrictResults(held: multiset<Lock>, batch: seq<Attempt>): (r: seq<Result>)
    ensures |r| == |batch|
  {
    if batch == [] then []
    else
      var n := |batch| - 1;
      var front := StrictResults(held, batch[..n]);
      front + [Outcome(held + TakenAll(batch[..n], front), batch[n])]
  }

  /** A lock is refused exactly when one of the two is for writing, so readers share. */
  lemma FreeExactly(held: multiset<Lock>, keys: seq<Lock>)
    ensures Free(held, keys) <==> !Blocks(held, keys)
    ensures Free(held, keys) <==>
      forall l, j | l in held && 0 <= j < |keys| && l.key == keys[j].key :: !l.writable && !keys[j].writable
  {
    if !Free(held, keys) {
      var j :| 0 <= j < |keys| && !FreeLock(held, keys[j]);
      var l := if held[Lock(keys[j].key, true)] > 0 then Lock(keys[j].key, true) else Lock(keys[j].key, false);
      assert l in held && Conflict(l, keys[j]);
    } else {
      forall l, j | l in held && 0 <= j < |keys| && l.key == keys[j].key ensures !l.writable && !keys[j].writable {
        assert FreeLock(held, keys[j]) && l == Lock(l.key, l.writable);
      }
    }
  }

  /** A success of the batch that asked for the lock. */
  ghost predicate IsTaker(batch: seq<Attempt>, results: seq<Result>, l: Lock, i: int) {
    0 <= i < |batch| && i < |results| && batch[i].Keys? && results[i] == Ok && l in batch[i].keys
  }

  /** What the successes of a batch hold is the locks of its successes. */
  lemma {:induction false} TakenExactly(batch: seq<Attempt>, results: seq<Result>, l: Lock)
    requires |results| == |batch|
    ensures l in TakenAll(batch, results) <==> exists i :: IsTaker(batch, results, l, i)
  {
    if batch != [] {
      var n := |batch| - 1;
      TakenExactly(batch[..n], results[..n], l);
      assert l in Taken(batch[n], results[n]) <==> IsTaker(batch, results, l, n);
      forall i ensures i != n ==> (IsTaker(batch, results, l, i) <==> IsTaker(batch[..n], results[..n], l, i)) {}
      assert IsTaker(batch[..n], results[..n], l, n) == false;
    }
  }

  /** A transaction fails with its own error, or with AccountInUse exactly when a held lock conflicts. */
  lemma OutcomeExactly(held: multiset<Lock>, attempt: Attempt)
    ensures attempt.Failed? ==> Outcome(held, attempt) == Err(attempt.error)
    ensures attempt.Keys? ==> Outcome(held, attempt) == Ok || Outcome(held, attempt) == Err(AccountInUse)
    ensures attempt.Keys? ==> (Outcome(held, attempt) == Ok <==> !Blocks(held, attempt.keys))
  {
    if attempt.Keys? { FreeExactly(held, attempt.keys); }
  }

  /** On the relaxed path a transaction is judged by the locks held before the batch. */
  lemma RelaxedExactly(held: multiset<Lock>, batch: seq<Attempt>, i: nat)
    requires i < |batch|
    ensures var r := RelaxedResults(held, batch)[i];
      && (batch[i].Failed? ==> r == Err(batch[i].error))
      && (batch[i].Keys? ==> r == Ok || r == Err(AccountInUse))
      && (batch[i].Keys? ==> (r == Ok <==> !Blocks(held, batch[i].keys)))
  {
    OutcomeExactly(held, batch[i]);
  }

  /** On the strict path it is also judged by the locks of the earlier successes of its batch. */
  lemma StrictExactly(held: multiset<Lock>, batch: seq<Attempt>, i: nat)
    requires i < |batch|
    ensures var rs := StrictResults(held, batch);
      && (batch[i].Failed? ==> rs[i] == Err(batch[i].error))
      && (batch[i].Keys? ==> rs[i] == Ok || rs[i] == Err(AccountInUse))
      && (batch[i].Keys? ==> (rs[i] == Ok <==>
            && !Blocks(held, batch[i].keys)
            && forall m | 0 <= m < i && batch[m].Keys? && rs[m] == Ok :: !Conflicts(batch[m].keys, batch[i].keys)))
  {
    hide StrictResults, TakenAll, Outcome;
    var rs := StrictResults(held, batch);
    StrictAt(held, batch, i);
    OutcomeExactly(held + TakenAll(batch[..i], rs[..i]), batch[i]);
    if batch[i].Keys? { BlocksBoth(held, batch, rs, i); }
  }

  /** What the earlier successes took blocks a transaction exactly when one of them conflicts with it. */
  lemma BlocksBoth(held: multiset<Lock>, batch: seq<Attempt>, rs: seq<Result>, i: nat)
    requires |rs| == |batch| && i < |batch| && batch[i].Keys?
    ensures !Blocks(held + TakenAll(batch[..i], rs[..i]), batch[i].keys) <==>
      && !Blocks(held, batch[i].keys)
      && forall m | 0 <= m < i && batch[m].Keys? && rs[m] == Ok :: !Conflicts(batch[m].keys, batch[i].keys)
  {
    hide TakenAll, Conflict;
    var taken, keys := TakenAll(batch[..i], rs[..i]), batch[i].keys;
    if m :| 0 <= m < i && batch[m].Keys? && rs[m] == Ok && Conflicts(batch[m].keys, keys) {
      var a, j :| 0 <= a < |batch[m].keys| && 0 <= j < |keys| && Conflict(batch[m].keys[a], keys[j]);
      TakenBefore(batch, rs, i, batch[m].keys[a]);
      assert batch[m].keys[a] in held + taken;
    }
    if l, j :| l in held && 0 <= j < |keys| && Conflict(l, keys[j]) { assert l in held + taken; }
    if l, j :| l in held + taken && 0 <= j < |keys| && Conflict(l, keys[j]) {
      if l !in held {
        TakenBefore(batch, rs, i, l);
        var m :| 0 <= m < i && batch[m].Keys? && rs[m] == Ok && l in batch[m].keys;
        var a :| 0 <= a < |batch[m].keys| && batch[m].keys[a] == l;
        assert Conflicts(batch[m].keys, keys);
      }
    }
  }

  lemma TakenBefore(batch: seq<Attempt>, results: seq<Result>, i: nat, l: Lock)
    requires |results| == |batch| && i <= |batch|
    ensures l in TakenAll(batch[..i], results[..i]) <==>
      exists m :: 0 <= m < i && batch[m].Keys? && results[m] == Ok && l in batch[m].keys
  {
    hide TakenAll;
    TakenExactly(batch[..i], results[..i], l);
    forall m
      ensures IsTaker(batch[..i], results[..i], l, m) <==>
        0 <= m < i && batch[m].Keys? && results[m] == Ok && l in batch[m].keys
    {}
  }

  lemma {:induction false} StrictAt(held: multiset<Lock>, batch: seq<Attempt>, i: nat)
    requires i < |batch|
    ensures var rs := StrictResults(held, batch); rs[i] == Outcome(held + TakenAll(batch[..i], rs[..i]), batch[i])
  {
    var n, rs := |batch| - 1, StrictResults(held, batch);
    assert rs[..n] == StrictResults(held, batch[..n]);
    if i < n {
      StrictAt(held, batch[..n], i);
      assert batch[..n][..i] == batch[..i] && rs[..n][..i] == rs[..i];
    }
  }

  lemma FreeOfLess(less: multiset<Lock>, more: multiset<Lock>, keys: seq<Lock>)
    requires less <= more && Free(more, keys)
    ensures Free(less, keys)
  {}

  /** Whatever the strict path lets in, the relaxed one lets in too. */
  lemma {:induction false} StrictSuccessIsRelaxed(held: multiset<Lock>, batch: seq<Attempt>, i: nat)
    requires i < |batch| && StrictResults(held, batch)[i].Ok?
    ensures RelaxedResults(held, batch)[i].Ok?
  {
    var n := |batch| - 1;
    if i == n {
      var front := StrictResults(held, batch[..n]);
      FreeOfLess(held, held + TakenAll(batch[..n], front), batch[n].keys);
    } else {
      StrictSuccessIsRelaxed(held, batch[..n], i);
    }
  }

  // ---------------------------------------------------------------- the lock table

  function CountOf(locks: map<Pubkey, nat>, key: Pubkey): nat {
    if key in locks then locks[key] else 0
  }

  /** The map counts the locks of one kind that are held, with no zero entries. */
  ghost predicate CountsLocks(locks: map<Pubkey, nat>, held: multiset<Lock>, writable: bool) {
    && (forall k :: CountOf(locks, k) == held[Lock(k, writable)])
    && (forall k | k in locks :: locks[k] > 0)
  }

  /** The maps are determined by what is held. */
  lemma CountsDetermine(a: map<Pubkey, nat>, b: map<Pubkey, nat>, held: multiset<Lock>, writable: bool)
    requires CountsLocks(a, held, writable) && CountsLocks(b, held, writable)
    ensures a == b
  {
    forall k ensures (k in a <==> k in b) && (k in a ==> a[k] == b[k]) {
      assert CountOf(a, k) == CountOf(b, k);
    }
  }

  function Increment(locks: map<Pubkey, nat>, key: Pubkey): map<Pubkey, nat> {
    locks[key := CountOf(locks, key) + 1]
  }

  /** Entries that reach zero are removed. */
  function Decrement(locks: map<Pubkey, nat>, key: Pubkey): map<Pubkey, nat> {
    if key !in locks || locks[key] == 0 then locks
    else if locks[key] == 1 then locks - {key}
    else locks[key := locks[key] - 1]
  }

  lemma LockCounts(write: map<Pubkey, nat>, read: map<Pubkey, nat>, held: multiset<Lock>, lock: Lock)
    requires CountsLocks(write, held, true) && CountsLocks(read, held, false)
    ensures CountsLocks(if lock.writable then Increment(write, lock.key) else write, held + multiset{lock}, true)
    ensures CountsLocks(if lock.writable then read else Increment(read, lock.key), held + multiset{lock}, false)
  {}

  lemma UnlockCounts(write: map<Pubkey, nat>, read: map<Pubkey, nat>, held: multiset<Lock>, lock: Lock)
    requires CountsLocks(write, held, true) && CountsLocks(read, held, false) && lock in held
    ensures CountsLocks(if lock.writable then Decrement(write, lock.key) else write, held - multiset{lock}, true)
    ensures CountsLocks(if lock.writable then read else Decrement(read, lock.key), held - multiset{lock}, false)
  {
    assert CountOf(write, lock.key) == held[Lock(lock.key, true)] &&
      CountOf(read, lock.key) == held[Lock(lock.key, false)];
  }

  /** With `a` given back, `b` is still held, and giving it back too leaves the rest. */
  lemma GivesBack(all: multiset<Lock>, held: multiset<Lock>, a: multiset<Lock>, b: multiset<Lock>)
    requires held + a == all && a + b <= all
    ensures b <= held && held - b + (a + b) == all
  {
    forall x: Lock ensures b[x] <= held[x] {
      assert (held + a)[x] == all[x] && (a + b)[x] <= all[x];
    }
  }

  lemma SameHeld(a: multiset<Lock>, b: multiset<Lock>, taken: multiset<Lock>)
    requires a + taken == b + taken
    ensures a == b
  {
    forall x: Lock ensures a[x] == b[x] { assert (a + taken)[x] == (b + taken)[x]; }
  }

  /** The first `i` locks. */
  ghost function First(keys: seq<Lock>, i: nat): multiset<Lock> requires i <= |keys| {
    multiset(keys[..i])
  }

  lemma FirstOnes(keys: seq<Lock>, i: nat)
    requires i <= |keys|
    ensures First(keys, 0) == multiset{} && First(keys, |keys|) == multiset(keys) && First(keys, i) <= multiset(keys)
    ensures i < |keys| ==> First(keys, i + 1) == First(keys, i) + multiset{keys[i]}
  {
    assert keys[..|keys|] == keys && keys == keys[..i] + keys[i..];
    if i < |keys| { assert keys[..i + 1] == keys[..i] + [keys[i]]; }
  }

  lemma UnlockStep(all: multiset<Lock>, held: multiset<Lock>, keys: seq<Lock>, i: nat)
    requires i < |keys| && multiset(keys) <= all && held + First(keys, i) == all
    ensures keys[i] in held && held - multiset{keys[i]} + First(keys, i + 1) == all
  {
    FirstOnes(keys, i);
    FirstOnes(keys, i + 1);
    hide First;
    GivesBack(all, held, First(keys, i), multiset{keys[i]});
  }

  class LockTable {
    var writeLocks: map<Pubkey, nat>
    var readLocks: map<Pubkey, nat>
    ghost var held: multiset<Lock>

    ghost predicate Valid()
      reads this
    {
      CountsLocks(writeLocks, held, true) && CountsLocks(readLocks, held, false)
    }

    constructor ()
      ensures Valid() && held == multiset{}
    {
      writeLocks, readLocks, held := map[], map[], multiset{};
    }

    method CanLockAccounts(keys: seq<Lock>) returns (can: bool)
      requires Valid()
      ensures can <==> Free(held, keys)
      ensures can <==> forall l, k | l in held && k in keys && l.key == k.key :: !l.writable && !k.writable
    {
      FreeExactly(held, keys);
      for i := 0 to |keys|
        invariant Free(held, keys[..i])
      {
        var key := keys[i].key;
        assert CountOf(writeLocks, key) == held[Lock(key, true)] && CountOf(readLocks, key) == held[Lock(key, false)];
        if key in writeLocks || (keys[i].writable && key in readLocks) {
          assert !FreeLock(held, keys[i]);
          return false;
        }
        assert keys[..i + 1] == keys[..i] + [keys[i]];
      }
      assert keys[..|keys|] == keys;
      can := true;
    }

    method LockAccounts(keys: seq<Lock>)
      requires Valid()
      modifies this
      ensures Valid() && held == old(held) + multiset(keys)
    {
      hide CountsLocks;
      for i := 0 to |keys|
        invariant Valid() && held == old(held) + multiset(keys[..i])
      {
        assert keys[..i + 1] == keys[..i] + [keys[i]];
        LockCounts(writeLocks, readLocks, held, keys[i]);
        if keys[i].writable {
          writeLocks := Increment(writeLocks, keys[i].key);
        } else {
          readLocks := Increment(readLocks, keys[i].key);
        }
        held := held + multiset{keys[i]};
      }
      assert keys[..|keys|] == keys;
    }

    method UnlockAccount(lock: Lock)
      requires Valid() && lock in held
      modifies this
      ensures Valid() && held == old(held) - multiset{lock}
    {
      hide CountsLocks, Decrement;
      UnlockCounts(writeLocks, readLocks, held, lock);
      if lock.writable {
        writeLocks := Decrement(writeLocks, lock.key);
      } else {
        readLocks := Decrement(readLocks, lock.key);
      }
      held := held - multiset{lock};
    }

    method UnlockAccounts(keys: seq<Lock>)
      requires Valid() && multiset(keys) <= held
      modifies this
      ensures Valid() && held + multiset(keys) == old(held)
    {
      FirstOnes(keys, 0);
      hide Valid, First;
      for i := 0 to |keys|
        invariant Valid() && held + First(keys, i) == old(held)
      {
        UnlockStep(old(held), held, keys, i);
        UnlockAccount(keys[i]);
      }
    }

    method TryLockAccounts(keys: seq<Lock>) returns (result: Result)
      requires Valid()
      modifies this
      ensures Valid() && result == Outcome(old(held), Keys(keys))
      ensures held == old(held) + if result == Ok then multiset(keys) else multiset{}
      ensures result == Ok || result == Err(AccountInUse)
      ensures result == Ok <==>
        forall l, k | l in old(held) && k in keys && l.key == k.key :: !l.writable && !k.writable
    {
      var can := CanLockAccounts(keys);
      if can {
        LockAccounts(keys);
        result := Ok;
      } else {
        result := Err(AccountInUse);
      }
    }

    /** The strict path: transaction by transaction. */
    method TryLockEach(batch: seq<Attempt>) returns (results: seq<Result>)
      requires Valid()
      modifies this
      ensures Valid() && results == StrictResults(old(held), batch)
      ensures held == old(held) + TakenAll(batch, results)
      ensures forall i :: 0 <= i < |batch| && batch[i].Failed? ==> results[i] == Err(batch[i].error)
      ensures forall i :: 0 <= i < |batch| && batch[i].Keys? ==> results[i] == Ok || results[i] == Err(AccountInUse)
      ensures forall i :: 0 <= i < |batch| && batch[i].Keys? ==> (results[i] == Ok <==>
        && !Blocks(old(held), batch[i].keys)
        && forall m | 0 <= m < i && batch[m].Keys? && results[m] == Ok :: !Conflicts(batch[m].keys, batch[i].keys))
      ensures forall l :: l in held <==>
        l in old(held) || exists i :: 0 <= i < |batch| && batch[i].Keys? && results[i] == Ok && l in batch[i].keys
    {
      hide StrictResults, TakenAll, Valid;
      results := LockEach(batch);
      StrictBatch(old(held), batch);
      TakenByBatch(batch, results);
    }

    method LockEach(batch: seq<Attempt>) returns (results: seq<Result>)
      requires Valid()
      modifies this
      ensures Valid() && results == StrictResults(old(held), batch)
      ensures held == old(held) + TakenAll(batch, results)
    {
      results := [];
      assert held == held + TakenAll(batch[..0], []);
      hide Valid, StrictResults, TakenAll;
      StrictStarts(held, batch);
      for i := 0 to |batch|
        invariant Valid() && |results| == i && results == StrictResults(old(held), batch[..i])
        invariant held == old(held) + TakenAll(batch[..i], results)
      {
        var result: Result;
        match batch[i] {
          case Failed(e) => result := Err(e);
          case Keys(keys) => result := TryLockAccounts(keys);
        }
        StrictNext(old(held), batch, i, results, result);
        results := results + [result];
      }
      assert batch[..|batch|] == batch;
    }

    /** The relaxed path: first every transaction is judged, then the locks are taken. */
    method TryLockTransactionBatch(batch: seq<Attempt>) returns (results: seq<Result>)
      requires Valid()
      modifies this
      ensures Valid() && results == RelaxedResults(old(held), batch)
      ensures held == old(held) + TakenAll(batch, results)
      ensures forall i :: 0 <= i < |batch| && batch[i].Failed? ==> results[i] == Err(batch[i].error)
      ensures forall i :: 0 <= i < |batch| && batch[i].Keys? ==> results[i] == Ok || results[i] == Err(AccountInUse)
      ensures forall i :: 0 <= i < |batch| && batch[i].Keys? ==>
        (results[i] == Ok <==> !Blocks(old(held), batch[i].keys))
      ensures forall l :: l in held <==>
        l in old(held) || exists i :: 0 <= i < |batch| && batch[i].Keys? && results[i] == Ok && l in batch[i].keys
    {
      hide RelaxedResults, TakenAll;
      results := Judge(batch);
      Take(batch, results);
      RelaxedBatch(old(held), batch);
      TakenByBatch(batch, results);
    }

    method Judge(batch: seq<Attempt>) returns (results: seq<Result>)
      requires Valid()
      ensures results == RelaxedResults(held, batch)
    {
      results := [];
      for i := 0 to |batch|
        invariant |results| == i && forall j :: 0 <= j < i ==> results[j] == Outcome(held, batch[j])
      {
        match batch[i] {
          case Failed(e) => results := results + [Err(e)];
          case Keys(keys) =>
            var can := CanLockAccounts(keys);
            results := results + [if can then Ok else Err(AccountInUse)];
        }
      }
    }

    method Take(batch: seq<Attempt>, results: seq<Result>)
      requires Valid() && |results| == |batch|
      modifies this
      ensures Valid() && held == old(held) + TakenAll(batch, results)
    {
      assert held == held + TakenAll(batch[..0], results[..0]);
      hide Valid, TakenAll;
      for i := 0 to |batch|
        invariant Valid() && held == old(held) + TakenAll(batch[..i], results[..i])
      {
        ghost var before := held;
        if batch[i].Keys? && results[i].Ok? { LockAccounts(batch[i].keys); }
        TakenNow(batch, results, i, old(held), before, held);
      }
      assert batch[..|batch|] == batch && results[..|batch|] == results;
    }

    /** Unlocking the successes of a batch gives back exactly what they took. */
    method UnlockBatch(batch: seq<Attempt>, results: seq<Result>)
      requires Valid() && |results| == |batch| && TakenAll(batch, results) <= held
      modifies this
      ensures Valid() && held + TakenAll(batch, results) == old(held)
    {
      assert held + TakenAll(batch[..0], results[..0]) == held;
      hide Valid, TakenAll;
      for i := 0 to |batch|
        invariant Valid() && held + TakenAll(batch[..i], results[..i]) == old(held)
      {
        ghost var before := held;
        GiveBackNext(batch, results, i, old(held), held);
        if batch[i].Keys? && results[i].Ok? { UnlockAccounts(batch[i].keys); }
        GivenBack(batch, results, i, old(held), before, held);
      }
      assert batch[..|batch|] == batch && results[..|batch|] == results;
    }

    /** Locking a batch and unlocking its successes leaves the two maps as they were. */
    method LockThenUnlock(batch: seq<Attempt>, relaxed: bool)
      requires Valid()
      modifies this
      ensures Valid() && writeLocks == old(writeLocks) && readLocks == old(readLocks)
    {
      var results: seq<Result>;
      if relaxed {
        results := TryLockTransactionBatch(batch);
      } else {
        results := TryLockEach(batch);
      }
      UnlockBatch(batch, results);
      SameHeld(held, old(held), TakenAll(batch, results));
      CountsDetermine(writeLocks, old(writeLocks), held, true);
      CountsDetermine(readLocks, old(readLocks), held, false);
    }
  }

  lemma RelaxedBatch(held: multiset<Lock>, batch: seq<Attempt>)
    ensures var rs := RelaxedResults(held, batch);
      && (forall i :: 0 <= i < |batch| && batch[i].Failed? ==> rs[i] == Err(batch[i].error))
      && (forall i :: 0 <= i < |batch| && batch[i].Keys? ==> rs[i] == Ok || rs[i] == Err(AccountInUse))
      && (forall i :: 0 <= i < |batch| && batch[i].Keys? ==> (rs[i] == Ok <==> !Blocks(held, batch[i].keys)))
  {
    hide RelaxedResults;
    var rs := RelaxedResults(held, batch);
    forall i | 0 <= i < |batch|
      ensures && (batch[i].Failed? ==> rs[i] == Err(batch[i].error))
              && (batch[i].Keys? ==> rs[i] == Ok || rs[i] == Err(AccountInUse))
              && (batch[i].Keys? ==> (rs[i] == Ok <==> !Blocks(held, batch[i].keys)))
    {
      RelaxedExactly(held, batch, i);
    }
  }

  lemma StrictBatch(held: multiset<Lock>, batch: seq<Attempt>)
    ensures var rs := StrictResults(held, batch);
      && (forall i :: 0 <= i < |batch| && batch[i].Failed? ==> rs[i] == Err(batch[i].error))
      && (forall i :: 0 <= i < |batch| && batch[i].Keys? ==> rs[i] == Ok || rs[i] == Err(AccountInUse))
      && (forall i :: 0 <= i < |batch| && batch[i].Keys? ==> (rs[i] == Ok <==>
            && !Blocks(held, batch[i].keys)
            && forall m | 0 <= m < i && batch[m].Keys? && rs[m] == Ok :: !Conflicts(batch[m].keys, batch[i].keys)))
  {
    hide StrictResults;
    var rs := StrictResults(held, batch);
    forall i | 0 <= i < |batch|
      ensures && (batch[i].Failed? ==> rs[i] == Err(batch[i].error))
              && (batch[i].Keys? ==> rs[i] == Ok || rs[i] == Err(AccountInUse))
              && (batch[i].Keys? ==> (rs[i] == Ok <==>
                && !Blocks(held, batch[i].keys)
                && forall m | 0 <= m < i && batch[m].Keys? && rs[m] == Ok :: !Conflicts(batch[m].keys, batch[i].keys)))
    {
      StrictExactly(held, batch, i);
    }
  }

  lemma TakenByBatch(batch: seq<Attempt>, results: seq<Result>)
    requires |results| == |batch|
    ensures forall l :: l in TakenAll(batch, results) <==>
      exists i :: 0 <= i < |batch| && batch[i].Keys? && results[i] == Ok && l in batch[i].keys
  {
    forall l: Lock
      ensures l in TakenAll(batch, results) <==>
        exists i :: 0 <= i < |batch| && batch[i].Keys? && results[i] == Ok && l in batch[i].keys
    {
      TakenExactly(batch, results, l);
      assert forall i :: 0 <= i < |batch| ==>
        (IsTaker(batch, results, l, i) <==> batch[i].Keys? && results[i] == Ok && l in batch[i].keys);
    }
  }

  lemma StrictStarts(held: multiset<Lock>, batch: seq<Attempt>)
    ensures StrictResults(held, batch[..0]) == []
  {}

  lemma StrictNext(held: multiset<Lock>, batch: seq<Attempt>, i: nat, results: seq<Result>, result: Result)
    requires i < |batch| && results == StrictResults(held, batch[..i])
    requires result == Outcome(held + TakenAll(batch[..i], results), batch[i])
    ensures StrictResults(held, batch[..i + 1]) == results + [result]
    ensures TakenAll(batch[..i + 1], results + [result]) == TakenAll(batch[..i], results) + Taken(batch[i], result)
  {
    assert batch[..i + 1][..i] == batch[..i] && (results + [result])[..i] == results;
  }

  lemma TakenStep(batch: seq<Attempt>, results: seq<Result>, i: nat)
    requires |results| == |batch| && i < |batch|
    ensures TakenAll(batch[..i + 1], results[..i + 1]) ==
      TakenAll(batch[..i], results[..i]) + Taken(batch[i], results[i])
  {
    assert batch[..i + 1][..i] == batch[..i] && results[..i + 1][..i] == results[..i];
  }

  lemma TakenNow(batch: seq<Attempt>, results: seq<Result>, i: nat, was: multiset<Lock>, before: multiset<Lock>,
                 held: multiset<Lock>)
    requires |results| == |batch| && i < |batch|
    requires before == was + TakenAll(batch[..i], results[..i]) && held == before + Taken(batch[i], results[i])
    ensures held == was + TakenAll(batch[..i + 1], results[..i + 1])
  {
    hide TakenAll, Taken;
    TakenStep(batch, results, i);
  }

  lemma GiveBackNext(batch: seq<Attempt>, results: seq<Result>, i: nat, all: multiset<Lock>, held: multiset<Lock>)
    requires |results| == |batch| && i < |batch| && TakenAll(batch, results) <= all
    requires held + TakenAll(batch[..i], results[..i]) == all
    ensures Taken(batch[i], results[i]) <= held
  {
    hide TakenAll, Taken;
    TakenPrefix(batch, results, i + 1);
    TakenStep(batch, results, i);
    GivesBack(all, held, TakenAll(batch[..i], results[..i]), Taken(batch[i], results[i]));
  }

  lemma GivenBack(batch: seq<Attempt>, results: seq<Result>, i: nat, all: multiset<Lock>, before: multiset<Lock>,
                  held: multiset<Lock>)
    requires |results| == |batch| && i < |batch|
    requires before + TakenAll(batch[..i], results[..i]) == all && held + Taken(batch[i], results[i]) == before
    ensures held + TakenAll(batch[..i + 1], results[..i + 1]) == all
  {
    hide TakenAll, Taken;
    TakenStep(batch, results, i);
  }

  lemma {:induction false} TakenPrefix(batch: seq<Attempt>, results: seq<Result>, i: nat)
    requires |results| == |batch| && i <= |batch|
    ensures TakenAll(batch[..i], results[..i]) <= TakenAll(batch, results)
    decreases |batch| - i
  {
    if i < |batch| {
      TakenPrefix(batch, results, i + 1);
      assert batch[..i + 1][..i] == batch[..i] && results[..i + 1][..i] == results[..i];
    } else {
      assert batch[..i] == batch && results[..i] == results;
    }
  }

  // ---------------------------------------------------------------- validation

  ghost predicate HasDuplicate(keys: seq<Pubkey>) {
    exists i, j :: 0 <= i < j < |keys| && keys[i] == keys[j]
  }

  const USE_ACCOUNT_LOCK_SET_SIZE := 32

  /** Few keys are compared pairwise, many through a set. */
  method HasDuplicates(keys: seq<Pubkey>) returns (found: bool)
    ensures found <==> exists i, j :: 0 <= i < j < |keys| && keys[i] == keys[j]
  {
    if |keys| >= USE_ACCOUNT_LOCK_SET_SIZE {
      var seen: set<Pubkey> := {};
      for i := 0 to |keys|
        invariant forall k :: k in seen <==> k in keys[..i]
        invariant !HasDuplicate(keys[..i])
      {
        assert keys[..i + 1] == keys[..i] + [keys[i]];
        if keys[i] in seen {
          var j :| 0 <= j < i && keys[j] == keys[i];
          return true;
        }
        seen := seen + {keys[i]};
      }
      assert keys[..|keys|] == keys;
      return false;
    } else {
      for i := 0 to |keys|
        invariant forall a, b :: 0 <= a < i && a < b < |keys| ==> keys[a] != keys[b]
      {
        for j := i + 1 to |keys|
          invariant forall b :: i < b < j ==> keys[i] != keys[b]
        {
          if keys[i] == keys[j] { return true; }
        }
      }
      return false;
    }
  }

  method ValidateAccountLocks(keys: seq<Pubkey>, limit: nat) returns (result: Result)
    ensures result == if |keys| > limit then Err(TooManyAccountLocks)
                      else if exists i, j :: 0 <= i < j < |keys| && keys[i] == keys[j] then Err(AccountLoadedTwice)
                      else Ok
  {
    if |keys| > limit {
      return Err(TooManyAccountLocks);
    }
    var found := HasDuplicates(keys);
    result := if found then Err(AccountLoadedTwice) else Ok;
  }

  // ---------------------------------------------------------------- runs of lock and unlock calls

  /** A transaction holding its locks: which call let it in, and whether on the strict path. */
  datatype Grant = Grant(call: nat, strict: bool, keys: seq<Lock>)

  ghost function Held(grants: seq<Grant>): multiset<Lock> {
    if grants == [] then multiset{} else Held(grants[..|grants| - 1]) + multiset(grants[|grants| - 1].keys)
  }

  /** The grants of a batch's successes. */
  ghost function Granted(call: nat, strict: bool, batch: seq<Attempt>, results: seq<Result>): seq<Grant>
    requires |results| == |batch|
  {
    if batch == [] then []
    else
      var n := |batch| - 1;
      Granted(call, strict, batch[..n], results[..n]) +
        if batch[n].Keys? && results[n].Ok? then [Grant(call, strict, batch[n].keys)] else []
  }

  datatype Call =
    | LockBatch(strict: bool, batch: seq<Attempt>)
    | Unlock(index: nat)

  ghost predicate CallStep(grants: seq<Grant>, id: nat, call: Call, grants': seq<Grant>) {
    match call
    case LockBatch(strict, batch) =>
      var results := if strict then StrictResults(Held(grants), batch) else RelaxedResults(Held(grants), batch);
      grants' == grants + Granted(id, strict, batch, results)
    case Unlock(index) => index < |grants| && grants' == grants[..index] + grants[index + 1..]
  }

  ghost predicate IsRun(states: seq<seq<Grant>>, calls: seq<Call>) {
    && |states| == |calls| + 1 && states[0] == []
    && forall i :: 0 <= i < |calls| ==> CallStep(states[i], i, calls[i], states[i + 1])
  }

  /** Transactions of different calls, and of one strict call, do not conflict. */
  ghost predicate Apart(grants: seq<Grant>) {
    forall i, j :: 0 <= i < j < |grants| && (grants[i].call != grants[j].call || grants[j].strict) ==>
      !Conflicts(grants[i].keys, grants[j].keys)
  }

  lemma {:induction false} HeldIncludes(grants: seq<Grant>, i: nat)
    requires i < |grants|
    ensures multiset(grants[i].keys) <= Held(grants)
  {
    if i < |grants| - 1 { HeldIncludes(grants[..|grants| - 1], i); }
  }

  lemma FreeIsApart(held: multiset<Lock>, a: seq<Lock>, b: seq<Lock>)
    requires multiset(a) <= held && Free(held, b)
    ensures !Conflicts(a, b)
  {
    forall i, j | 0 <= i < |a| && 0 <= j < |b| ensures !Conflict(a[i], b[j]) {
      assert a[i] in multiset(a);
      assert a[i] == Lock(a[i].key, a[i].writable) && held[a[i]] > 0;
      assert FreeLock(held, b[j]);
    }
  }

  /** One more transaction whose keys are free of what is held. */
  lemma AddGrant(grants: seq<Grant>, held: multiset<Lock>, from: nat, grant: Grant)
    requires Apart(grants) && from <= |grants| && Free(held, grant.keys)
    requires forall i :: 0 <= i < from ==> multiset(grants[i].keys) <= held
    requires forall i :: from <= i < |grants| ==> grants[i].call == grant.call && !grant.strict
    ensures Apart(grants + [grant])
  {
    forall i | 0 <= i < from ensures !Conflicts(grants[i].keys, grant.keys) {
      FreeIsApart(held, grants[i].keys, grant.keys);
    }
  }

  lemma {:induction false} HeldConcat(a: seq<Grant>, b: seq<Grant>)
    ensures Held(a + b) == Held(a) + Held(b)
    decreases |b|
  {
    if b == [] {
      assert a + b == a;
    } else {
      HeldConcat(a, b[..|b| - 1]);
      assert (a + b)[..|a + b| - 1] == a + b[..|b| - 1];
    }
  }

  lemma {:induction false} HeldGranted(call: nat, strict: bool, batch: seq<Attempt>, results: seq<Result>)
    requires |results| == |batch|
    ensures Held(Granted(call, strict, batch, results)) == TakenAll(batch, results)
  {
    if batch != [] {
      var n := |batch| - 1;
      HeldGranted(call, strict, batch[..n], results[..n]);
      var front := Granted(call, strict, batch[..n], results[..n]);
      if batch[n].Keys? && results[n].Ok? {
        var last := Grant(call, strict, batch[n].keys);
        assert (front + [last])[..|front|] == front;
      } else {
        assert front + [] == front;
      }
    }
  }

  lemma {:induction false} GrantedFrom(call: nat, strict: bool, batch: seq<Attempt>, results: seq<Result>)
    requires |results| == |batch|
    ensures forall i :: 0 <= i < |Granted(call, strict, batch, results)| ==>
      Granted(call, strict, batch, results)[i].call == call && Granted(call, strict, batch, results)[i].strict == strict
  {
    if batch != [] { GrantedFrom(call, strict, batch[..|batch| - 1], results[..|batch| - 1]); }
  }

  lemma StrictStep(held: multiset<Lock>, batch: seq<Attempt>)
    requires batch != []
    ensures var n, results := |batch| - 1, StrictResults(held, batch);
      && results[..n] == StrictResults(held, batch[..n])
      && results[n] == Outcome(held + TakenAll(batch[..n], results[..n]), batch[n])
  {}

  lemma GrantedStep(call: nat, strict: bool, batch: seq<Attempt>, results: seq<Result>)
    requires |results| == |batch| > 0
    ensures var n := |batch| - 1;
      Granted(call, strict, batch, results) == Granted(call, strict, batch[..n], results[..n]) +
        if batch[n].Keys? && results[n].Ok? then [Grant(call, strict, batch[n].keys)] else []
  {}

  lemma AddStrict(grants: seq<Grant>, grant: Grant)
    requires Apart(grants) && Free(Held(grants), grant.keys)
    ensures Apart(grants + [grant])
  {
    forall i | 0 <= i < |grants| ensures multiset(grants[i].keys) <= Held(grants) { HeldIncludes(grants, i); }
    AddGrant(grants, Held(grants), |grants|, grant);
  }

  lemma {:induction false} StrictApart(grants: seq<Grant>, call: nat, batch: seq<Attempt>)
    requires Apart(grants)
    ensures Apart(grants + Granted(call, true, batch, StrictResults(Held(grants), batch)))
    decreases |batch|
  {
    if batch == [] {
      assert grants + [] == grants;
    } else {
      hide Held, Granted, StrictResults, TakenAll, Apart;
      var n, results := |batch| - 1, StrictResults(Held(grants), batch);
      StrictStep(Held(grants), batch);
      GrantedStep(call, true, batch, results);
      StrictApart(grants, call, batch[..n]);
      var added := Granted(call, true, batch[..n], results[..n]);
      var sofar := grants + added;
      HeldConcat(grants, added);
      HeldGranted(call, true, batch[..n], results[..n]);
      if batch[n].Keys? && results[n].Ok? {
        var last := Grant(call, true, batch[n].keys);
        AddStrict(sofar, last);
        assert grants + (added + [last]) == sofar + [last];
      } else {
        assert grants + (added + []) == sofar;
      }
    }
  }

  lemma {:induction false} RelaxedApart(grants: seq<Grant>, call: nat, batch: seq<Attempt>)
    requires Apart(grants)
    ensures Apart(grants + Granted(call, false, batch, RelaxedResults(Held(grants), batch)))
    decreases |batch|
  {
    if batch == [] {
      assert grants + [] == grants;
    } else {
      var n := |batch| - 1;
      var front := RelaxedResults(Held(grants), batch[..n]);
      var results := RelaxedResults(Held(grants), batch);
      RelaxedApart(grants, call, batch[..n]);
      assert results[..n] == front && results[n] == Outcome(Held(grants), batch[n]);
      var added := Granted(call, false, batch[..n], front);
      var sofar := grants + added;
      GrantedFrom(call, false, batch[..n], front);
      if batch[n].Keys? && results[n].Ok? {
        var last := Grant(call, false, batch[n].keys);
        forall i | 0 <= i < |grants| ensures multiset(sofar[i].keys) <= Held(grants) { HeldIncludes(grants, i); }
        AddGrant(sofar, Held(grants), |grants|, last);
        assert grants + (added + [last]) == sofar + [last];
      } else {
        assert grants + (added + []) == sofar;
      }
    }
  }

  lemma ApartMeans(grants: seq<Grant>)
    requires Apart(grants)
    ensures forall a, b, l, k | 0 <= a < b < |grants| && l in grants[a].keys && k in grants[b].keys &&
      (grants[a].call != grants[b].call || grants[b].strict) && l.key == k.key :: !l.writable && !k.writable
  {
    forall a, b, l, k | 0 <= a < b < |grants| && l in grants[a].keys && k in grants[b].keys &&
      (grants[a].call != grants[b].call || grants[b].strict) && l.key == k.key ensures !l.writable && !k.writable
    {
      assert !Conflicts(grants[a].keys, grants[b].keys);
      var i :| 0 <= i < |grants[a].keys| && grants[a].keys[i] == l;
      var j :| 0 <= j < |grants[b].keys| && grants[b].keys[j] == k;
      assert !Conflict(grants[a].keys[i], grants[b].keys[j]);
    }
  }

  /** In every run, transactions let in by different calls, or by one call on the strict path, have a key in common only
      if both read it. */
  lemma RunsShareReads(states: seq<seq<Grant>>, calls: seq<Call>, i: nat)
    requires IsRun(states, calls) && i < |states|
    ensures forall a, b, l, k | 0 <= a < b < |states[i]| && l in states[i][a].keys && k in states[i][b].keys &&
      (states[i][a].call != states[i][b].call || states[i][b].strict) && l.key == k.key :: !l.writable && !k.writable
  {
    RunsKeepApart(states, calls, i);
    ApartMeans(states[i]);
  }

  /** In every run, transactions let in by different calls, or by one call on the strict path, do not conflict. */
  lemma {:induction false} RunsKeepApart(states: seq<seq<Grant>>, calls: seq<Call>, i: nat)
    requires IsRun(states, calls) && i < |states|
    ensures Apart(states[i])
  {
    if i > 0 {
      RunsKeepApart(states, calls, i - 1);
      assert CallStep(states[i - 1], i - 1, calls[i - 1], states[i - 1 + 1]);
      match calls[i - 1] {
        case LockBatch(strict, batch) =>
          if strict { StrictApart(states[i - 1], i - 1, batch); } else { RelaxedApart(states[i - 1], i - 1, batch); }
        case Unlock(index) =>
      }
    }
  }
}
