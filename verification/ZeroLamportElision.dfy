/**
 Storing a batch of accounts in the write cache: duplicates and invisible zero-lamport writes are left out, the index
 is updated in chunks, and no load can tell.
 */
module ZeroLamportElision {
  import opened Types
  import Arithmetic
  import Sets

  type Pair = (Pubkey, Slot)
  /** The account each index entry leads to. */
  type Entries = map<Pair, Account>

  datatype Write = Write(key: Pubkey, account: Account)

  // ---------------------------------------------------------------- loads

  predicate Visible(roots: set<Slot>, ancestors: set<Slot>, x: Slot) {
    x in ancestors || x in roots
  }

  predicate IsNewest(entries: Entries, roots: set<Slot>, ancestors: set<Slot>, p: Pair) {
    && p in entries && Visible(roots, ancestors, p.1)
    && forall q | q in entries && q.0 == p.0 && Visible(roots, ancestors, q.1) :: q.1 <= p.1
  }

  function NonZero(a: Account): Option<Account> {
    if a.IsZeroLamport() then None else Some(a)
  }

  /** What a load of the key on the fork returns. */
  ghost predicate Loads(entries: Entries, roots: set<Slot>, ancestors: set<Slot>, k: Pubkey, r: Option<Account>) {
    || (r.None? && forall p | p in entries && p.0 == k :: !Visible(roots, ancestors, p.1))
    || (exists p | p in entries && p.0 == k :: IsNewest(entries, roots, ancestors, p) && r == NonZero(entries[p]))
  }

  /** A load sees the newest slot that is an ancestor or a root, and returns its account if it has lamports. */
  lemma LoadsByLamports(entries: Entries, roots: set<Slot>, ancestors: set<Slot>, k: Pubkey, r: Option<Account>)
    ensures Loads(entries, roots, ancestors, k, r) <==>
      || (r == None && forall p | p in entries && p.0 == k :: p.1 !in ancestors && p.1 !in roots)
      || (exists x: Slot :: (k, x) in entries && (x in ancestors || x in roots) &&
            (forall q | q in entries && q.0 == k && (q.1 in ancestors || q.1 in roots) :: q.1 <= x) &&
            r == if entries[(k, x)].lamports > 0 then Some(entries[(k, x)]) else None)
  {
    if p :| p in entries && p.0 == k && IsNewest(entries, roots, ancestors, p) && r == NonZero(entries[p]) {
      assert p == (k, p.1);
    }
  }

  /** Every key loads as something. */
  lemma HasLoad(entries: Entries, roots: set<Slot>, ancestors: set<Slot>, k: Pubkey) returns (r: Option<Account>)
    ensures Loads(entries, roots, ancestors, k, r)
  {
    var slots := set p | p in entries && p.0 == k && Visible(roots, ancestors, p.1) :: p.1;
    if slots == {} {
      r := None;
      forall p | p in entries && p.0 == k ensures !Visible(roots, ancestors, p.1) { assert p.1 !in slots; }
    } else {
      var x := Sets.MaxOf(slots);
      var p :| p in entries && p.0 == k && Visible(roots, ancestors, p.1) && p.1 == x;
      forall q | q in entries && q.0 == k && Visible(roots, ancestors, q.1) ensures q.1 <= x { assert q.1 in slots; }
      assert IsNewest(entries, roots, ancestors, p);
      r := NonZero(entries[p]);
    }
  }

  // ---------------------------------------------------------------- what is stored

  /** No later write of the batch has the same key. */
  predicate IsLast(batch: seq<Write>, i: nat) {
    i < |batch| && forall j :: i < j < |batch| ==> batch[j].key != batch[i].key
  }

  /** A zero-lamport write that changes nothing: with ancestors, the key's newest visible version is zero-lamport
      or missing; without, the key is not in the index at all. */
  predicate Elided(entries: Entries, roots: set<Slot>, ancestors: Option<set<Slot>>, w: Write) {
    && w.account.IsZeroLamport()
    && match ancestors
       case Some(a) =>
         forall p | p in entries && p.0 == w.key :: IsNewest(entries, roots, a, p) ==> entries[p].IsZeroLamport()
       case None => forall p | p in entries :: p.0 != w.key
  }

  predicate Stores(entries: Entries, roots: set<Slot>, ancestors: Option<set<Slot>>, batch: seq<Write>, i: nat) {
    IsLast(batch, i) && !Elided(entries, roots, ancestors, batch[i])
  }

  /** The key loads as an account on the fork. */
  ghost predicate HasFunds(entries: Entries, roots: set<Slot>, ancestors: set<Slot>, k: Pubkey) {
    exists a: Account :: a.lamports > 0 && Loads(entries, roots, ancestors, k, Some(a))
  }

  /** A zero-lamport write is left out exactly when the key has no account it could end. */
  lemma ElidedExactly(entries: Entries, roots: set<Slot>, ancestors: Option<set<Slot>>, w: Write)
    ensures Elided(entries, roots, ancestors, w) <==>
      && w.account.lamports == 0
      && (ancestors.None? ==> forall p | p in entries :: p.0 != w.key)
      && (ancestors.Some? ==> !HasFunds(entries, roots, ancestors.value, w.key))
  {
    if ancestors.Some? && HasFunds(entries, roots, ancestors.value, w.key) {
      var a: Account :| a.lamports > 0 && Loads(entries, roots, ancestors.value, w.key, Some(a));
      var p :| p in entries && p.0 == w.key && IsNewest(entries, roots, ancestors.value, p) &&
        Some(a) == NonZero(entries[p]);
    } else if ancestors.Some? {
      forall p | p in entries && p.0 == w.key && IsNewest(entries, roots, ancestors.value, p)
        ensures entries[p].IsZeroLamport()
      {
        assert NonZero(entries[p]).Some? ==> Loads(entries, roots, ancestors.value, w.key, Some(entries[p]));
      }
    }
  }

  /** Works through the batch from its end, remembering the keys it has met. */
  method WriteAccountsToCache(entries: Entries, roots: set<Slot>, ancestors: Option<set<Slot>>, batch: seq<Write>)
    returns (stored: seq<bool>)
    ensures |stored| == |batch|
    ensures forall i :: 0 <= i < |batch| ==> stored[i] == Stores(entries, roots, ancestors, batch, i)
    ensures forall i :: 0 <= i < |batch| ==> (stored[i] <==>
      && (forall j :: i < j < |batch| ==> batch[j].key != batch[i].key)
      && (|| batch[i].account.lamports > 0
          || (ancestors.None? && exists p | p in entries :: p.0 == batch[i].key)
          || (ancestors.Some? && HasFunds(entries, roots, ancestors.value, batch[i].key))))
  {
    stored := [];
    var seen: set<Pubkey> := {};
    var i := |batch|;
    while i > 0
      invariant 0 <= i <= |batch| && |stored| == |batch| - i
      invariant forall k :: k in seen <==> exists j :: i <= j < |batch| && batch[j].key == k
      invariant forall j :: i <= j < |batch| ==> stored[j - i] == Stores(entries, roots, ancestors, batch, j)
    {
      i := i - 1;
      var w := batch[i];
      var last := w.key !in seen;
      assert last <==> IsLast(batch, i);
      var keep := last && !Elided(entries, roots, ancestors, w);
      seen := seen + {w.key};
      stored := [keep] + stored;
    }
    forall j | 0 <= j < |batch|
      ensures Elided(entries, roots, ancestors, batch[j]) <==>
        && batch[j].account.lamports == 0
        && (ancestors.None? ==> forall p | p in entries :: p.0 != batch[j].key)
        && (ancestors.Some? ==> !HasFunds(entries, roots, ancestors.value, batch[j].key))
    {
      ElidedExactly(entries, roots, ancestors, batch[j]);
    }
  }

  // ---------------------------------------------------------------- the index update

  /** The entries after upserting the stored writes whose position is in `done`. */
  ghost predicate Upserted(entries: Entries, slot: Slot, batch: seq<Write>, stored: seq<bool>, done: set<nat>,
                           updated: Entries)
    requires |stored| == |batch|
  {
    && (forall i :: 0 <= i < |batch| && stored[i] && i in done ==>
          (batch[i].key, slot) in updated && updated[(batch[i].key, slot)] == batch[i].account)
    && (forall p | p in updated :: IsStored(slot, batch, stored, done, p) || (p in entries && updated[p] == entries[p]))
    && (forall p | p in entries :: p in updated)
  }

  ghost predicate IsStored(slot: Slot, batch: seq<Write>, stored: seq<bool>, done: set<nat>, p: Pair)
    requires |stored| == |batch|
  {
    exists i :: 0 <= i < |batch| && stored[i] && i in done && p == (batch[i].key, slot)
  }

  lemma UpsertedNext(entries: Entries, slot: Slot, batch: seq<Write>, stored: seq<bool>, done: set<nat>,
                     updated: Entries, i: nat)
    requires |stored| == |batch| && Upserted(entries, slot, batch, stored, done, updated) && i < |batch| && i !in done
    requires forall j :: 0 <= j < |batch| && stored[j] ==> IsLast(batch, j)
    ensures Upserted(entries, slot, batch, stored, done + {i},
                     if stored[i] then updated[(batch[i].key, slot) := batch[i].account] else updated)
  {
    var after := if stored[i] then updated[(batch[i].key, slot) := batch[i].account] else updated;
    forall j | 0 <= j < |batch| && stored[j] && j in done && stored[i] ensures batch[j].key != batch[i].key {
      assert IsLast(batch, i) && IsLast(batch, j);
    }
    forall p | p in after ensures IsStored(slot, batch, stored, done + {i}, p) ||
      (p in entries && after[p] == entries[p]) {
      if stored[i] && p == (batch[i].key, slot) {
        assert i in done + {i};
      } else if IsStored(slot, batch, stored, done, p) {
        var j :| 0 <= j < |batch| && stored[j] && j in done && p == (batch[j].key, slot);
        assert j in done + {i};
      }
    }
  }

  /** The positions from `start` on, up to `end`. */
  function Positions(start: nat, end: nat): (s: set<nat>)
    ensures forall i :: i in s <==> start <= i < end
  {
    if start >= end then {} else Positions(start, end - 1) + {end - 1}
  }

  method UpdateChunk(ghost entries: Entries, before: Entries, slot: Slot, batch: seq<Write>, stored: seq<bool>,
                     start: nat, end: nat, ghost done: set<nat>)
    returns (updated: Entries)
    requires |stored| == |batch| && start <= end <= |batch| && Upserted(entries, slot, batch, stored, done, before)
    requires forall i :: start <= i < end ==> i !in done
    requires forall j :: 0 <= j < |batch| && stored[j] ==> IsLast(batch, j)
    ensures Upserted(entries, slot, batch, stored, done + Positions(start, end), updated)
  {
    updated := before;
    assert done + Positions(start, start) == done;
    for i := start to end
      invariant Upserted(entries, slot, batch, stored, done + Positions(start, i), updated)
    {
      UpsertedNext(entries, slot, batch, stored, done + Positions(start, i), updated, i);
      assert done + Positions(start, i + 1) == done + Positions(start, i) + {i};
      if stored[i] { updated := updated[(batch[i].key, slot) := batch[i].account]; }
    }
  }

  /** Positions handled once the chunks of `chunks` are done. */
  ghost predicate ChunksDone(len: nat, size: nat, chunks: set<nat>, done: set<nat>)
    requires size > 0
  {
    forall i :: 0 <= i < len ==> (i in done <==> i / size in chunks)
  }

  lemma InChunk(len: nat, size: nat, chunk: nat, i: nat)
    requires size > 0 && i < len && chunk * size <= len
    ensures i / size == chunk <==> chunk * size <= i < Min(chunk * size + size, len)
  {
    var q := i / size;
    DivLaw(i, size);
    if q < chunk {
      Arithmetic.NextMultiple(size, q, chunk);
    } else if q > chunk {
      Arithmetic.NextMultiple(size, chunk, q);
    }
  }

  lemma DivLaw(i: nat, size: nat)
    requires size > 0
    ensures i / size * size <= i < i / size * size + size
  {}

  /** Upserts the index in chunks, in any order of the chunks: exactly the stored writes are indexed. */
  method UpdateIndexCachedAccounts(entries: Entries, slot: Slot, batch: seq<Write>, stored: seq<bool>, size: nat)
    returns (updated: Entries)
    requires |stored| == |batch| && size > 0
    requires forall j :: 0 <= j < |batch| && stored[j] ==> IsLast(batch, j)
    ensures Upserted(entries, slot, batch, stored, Positions(0, |batch|), updated)
  {
    hide Upserted, ChunksDone, Positions;
    updated := entries;
    NothingUpserted(entries, slot, batch, stored, size);
    var batches := 1 + |batch| / size;
    var todo := Positions(0, batches);
    ghost var done: set<nat> := {};
    ghost var chunks: set<nat> := {};
    while todo != {}
      invariant forall c :: c in chunks || c in todo <==> 0 <= c < batches
      invariant chunks !! todo && done <= Positions(0, |batch|)
      invariant ChunksDone(|batch|, size, chunks, done)
      invariant Upserted(entries, slot, batch, stored, done, updated)
      decreases todo
    {
      var chunk :| chunk in todo;
      todo := todo - {chunk};
      LastChunk(|batch|, size, chunk);
      var start := chunk * size;
      var end := Min(start + size, |batch|);
      ChunkNext(|batch|, size, chunks, done, chunk);
      updated := UpdateChunk(entries, updated, slot, batch, stored, start, end, done);
      done := done + Positions(start, end);
      chunks := chunks + {chunk};
    }
    AllChunks(|batch|, size, chunks, done);
  }

  lemma NothingUpserted(entries: Entries, slot: Slot, batch: seq<Write>, stored: seq<bool>, size: nat)
    requires |stored| == |batch| && size > 0
    ensures Upserted(entries, slot, batch, stored, {}, entries) && ChunksDone(|batch|, size, {}, {})
  {}

  lemma ChunkNext(len: nat, size: nat, chunks: set<nat>, done: set<nat>, chunk: nat)
    requires size > 0 && chunk * size <= len && ChunksDone(len, size, chunks, done) && chunk !in chunks
    ensures var positions := Positions(chunk * size, Min(chunk * size + size, len));
      ChunksDone(len, size, chunks + {chunk}, done + positions) && forall i | i in positions :: i !in done
  {
    forall i | 0 <= i < len ensures i / size == chunk <==> chunk * size <= i < Min(chunk * size + size, len) {
      InChunk(len, size, chunk, i);
    }
  }

  lemma AllChunks(len: nat, size: nat, chunks: set<nat>, done: set<nat>)
    requires size > 0 && ChunksDone(len, size, chunks, done) && done <= Positions(0, len)
    requires forall c :: c in chunks <==> 0 <= c < 1 + len / size
    ensures done == Positions(0, len)
  {
    forall i | 0 <= i < len ensures i in done { DivMonotone(i, len, size); }
  }

  lemma LastChunk(len: nat, size: nat, chunk: nat)
    requires size > 0 && chunk < 1 + len / size
    ensures chunk * size <= len
  {
    DivLaw(len, size);
    if chunk < len / size { Arithmetic.NextMultiple(size, chunk, len / size); }
  }

  lemma DivMonotone(i: nat, len: nat, size: nat)
    requires size > 0 && i < len
    ensures i / size <= len / size
  {
    DivLaw(i, size);
    DivLaw(len, size);
    if i / size > len / size { Arithmetic.NextMultiple(size, len / size, i / size); }
  }

  // ---------------------------------------------------------------- no load can tell

  /** The slot written to is on the fork, and nothing visible on the fork is newer. */
  ghost predicate IsTip(entries: Entries, roots: set<Slot>, fork: set<Slot>, slot: Slot) {
    slot in fork && forall p | p in entries && Visible(roots, fork, p.1) :: p.1 <= slot
  }

  /** Was the batch written, and only what the rules store of it? */
  ghost predicate BatchWritten(entries: Entries, roots: set<Slot>, ancestors: Option<set<Slot>>, slot: Slot,
                               batch: seq<Write>,
                               stored: seq<bool>, updated: Entries) {
    && |stored| == |batch| && (forall i :: 0 <= i < |batch| ==>
         stored[i] == Stores(entries, roots, ancestors, batch, i))
    && Upserted(entries, slot, batch, stored, Positions(0, |batch|), updated)
  }

  /** A key that no stored write has keeps its entries. */
  lemma UntouchedKey(slot: Slot, batch: seq<Write>, stored: seq<bool>, entries: Entries, updated: Entries, k: Pubkey)
    requires |stored| == |batch| && Upserted(entries, slot, batch, stored, Positions(0, |batch|), updated)
    requires forall j :: 0 <= j < |batch| && stored[j] ==> batch[j].key != k
    ensures forall p: Pair | p.0 == k :: (p in updated <==> p in entries) && (p in updated ==> updated[p] == entries[p])
  {
    forall p | p in updated && p.0 == k ensures !IsStored(slot, batch, stored, Positions(0, |batch|), p) {}
  }

  lemma StoredIsLoaded(entries: Entries, roots: set<Slot>, fork: set<Slot>, ancestors: Option<set<Slot>>, slot: Slot,
                       batch: seq<Write>,
                       stored: seq<bool>, updated: Entries, i: nat, r: Option<Account>)
    requires BatchWritten(entries, roots, ancestors, slot, batch, stored, updated) && IsTip(entries, roots, fork, slot)
    requires i < |batch| && stored[i] && Loads(updated, roots, fork, batch[i].key, r)
    ensures r == if batch[i].account.lamports > 0 then Some(batch[i].account) else None
  {
    StillTip(entries, roots, fork, slot, batch, stored, updated);
    assert i in Positions(0, |batch|);
    hide Loads, IsTip, Visible, IsStored;
    LoadsTip(updated, roots, fork, slot, batch[i].key, r);
  }

  /** The batch writes to its own slot only. */
  lemma StillTip(entries: Entries, roots: set<Slot>, fork: set<Slot>, slot: Slot, batch: seq<Write>, stored: seq<bool>,
                 updated: Entries)
    requires |stored| == |batch| && Upserted(entries, slot, batch, stored, Positions(0, |batch|), updated)
    requires IsTip(entries, roots, fork, slot)
    ensures IsTip(updated, roots, fork, slot)
  {
    forall p | p in updated && Visible(roots, fork, p.1) ensures p.1 <= slot {
      assert IsStored(slot, batch, stored, Positions(0, |batch|), p) || p in entries;
    }
  }

  lemma LoadsTip(entries: Entries, roots: set<Slot>, fork: set<Slot>, slot: Slot, k: Pubkey, r: Option<Account>)
    requires IsTip(entries, roots, fork, slot) && (k, slot) in entries && Loads(entries, roots, fork, k, r)
    ensures r == NonZero(entries[(k, slot)])
  {
    assert Visible(roots, fork, (k, slot).1);
    var p :| p in entries && p.0 == k && IsNewest(entries, roots, fork, p) && r == NonZero(entries[p]);
    assert p == (k, slot);
  }

  lemma ElidedIsAbsent(entries: Entries, roots: set<Slot>, fork: set<Slot>, ancestors: Option<set<Slot>>, slot: Slot,
                       batch: seq<Write>,
                       stored: seq<bool>, updated: Entries, i: nat, r: Option<Account>)
    requires BatchWritten(entries, roots, ancestors, slot, batch, stored, updated) &&
      (ancestors.Some? ==> ancestors.value == fork)
    requires IsLast(batch, i) && !stored[i] && Loads(updated, roots, fork, batch[i].key, r)
    ensures r == if batch[i].account.lamports > 0 then Some(batch[i].account) else None
  {
    var k := batch[i].key;
    assert Elided(entries, roots, ancestors, batch[i]);
    forall j | 0 <= j < |batch| && stored[j] ensures batch[j].key != k {
      assert IsLast(batch, j);
    }
    UntouchedKey(slot, batch, stored, entries, updated, k);
    if p :| p in updated && p.0 == k && IsNewest(updated, roots, fork, p) {
      assert IsNewest(entries, roots, fork, p);
    }
  }

  /** Stores a batch: every key of the batch then loads as its last write, or as missing if that is zero-lamport,
      and every other key as before. */
  method StoreBatch(entries: Entries, roots: set<Slot>, ghost fork: set<Slot>, ancestors: Option<set<Slot>>, slot: Slot,
                    batch: seq<Write>, chunkSize: nat)
    returns (updated: Entries, stored: seq<bool>)
    requires IsTip(entries, roots, fork, slot) && (ancestors.Some? ==> ancestors.value == fork) && chunkSize > 0
    ensures BatchWritten(entries, roots, ancestors, slot, batch, stored, updated)
    ensures forall i: nat, r | IsLast(batch, i) && Loads(updated, roots, fork, batch[i].key, r) ::
      r == if batch[i].account.lamports > 0 then Some(batch[i].account) else None
    ensures forall k, r | (forall i :: 0 <= i < |batch| ==> batch[i].key != k) ::
      Loads(updated, roots, fork, k, r) <==> Loads(entries, roots, fork, k, r)
  {
    stored := WriteAccountsToCache(entries, roots, ancestors, batch);
    updated := UpdateIndexCachedAccounts(entries, slot, batch, stored, chunkSize);
    forall i: nat, r | IsLast(batch, i) && Loads(updated, roots, fork, batch[i].key, r)
      ensures r == if batch[i].account.lamports > 0 then Some(batch[i].account) else None
    {
      if stored[i] {
        StoredIsLoaded(entries, roots, fork, ancestors, slot, batch, stored, updated, i, r);
      } else {
        ElidedIsAbsent(entries, roots, fork, ancestors, slot, batch, stored, updated, i, r);
      }
    }
    forall k: Pubkey, r | (forall i :: 0 <= i < |batch| ==> batch[i].key != k)
      ensures Loads(updated, roots, fork, k, r) <==> Loads(entries, roots, fork, k, r)
    {
      SameLoads(entries, roots, fork, slot, batch, stored, updated, k, r);
    }
  }

  lemma SameLoads(entries: Entries, roots: set<Slot>, fork: set<Slot>, slot: Slot, batch: seq<Write>, stored: seq<bool>,
                  updated: Entries, k: Pubkey, r: Option<Account>)
    requires |stored| == |batch| && Upserted(entries, slot, batch, stored, Positions(0, |batch|), updated)
    requires forall i :: 0 <= i < |batch| ==> batch[i].key != k
    ensures Loads(updated, roots, fork, k, r) <==> Loads(entries, roots, fork, k, r)
  {
    UntouchedKey(slot, batch, stored, entries, updated, k);
    forall p | p in entries && p.0 == k
      ensures IsNewest(entries, roots, fork, p) <==> IsNewest(updated, roots, fork, p) {}
  }
}
