/**
 The accounts database as the object it is: background operations that work through keys and slots one by
 one, each proved to have the effect that module Database describes.
 */
module AccountsDatabase {
  import opened Types
  import Sets
  import opened Database
  import opened DatabaseInvariant
  import opened DatabaseProof
  import opened OperationEffects
  import CleanDependencies
  import CleanPurge

  // ---------------------------------------------------------------- the parts of a flush

  /** Decides key by key what is written: with cleaning, only what the batch has not written yet. */
  method ChooseWrites(keys: set<Pubkey>, before: set<Pubkey>, clean: bool)
    returns (write: set<Pubkey>, skip: set<Pubkey>, written: set<Pubkey>)
    ensures skip == (if clean then keys * before else {}) && write == keys - skip
    ensures written == if clean then before + keys else before
  {
    write, skip, written := {}, {}, before;
    var todo := keys;
    while todo != {}
      invariant todo <= keys && write + skip == keys - todo
      invariant skip == if clean then (keys - todo) * before else {}
      invariant write == keys - todo - skip
      invariant written == if clean then before + (keys - todo) else before
      decreases todo
    {
      var key :| key in todo;
      todo := todo - {key};
      if clean && key in written {
        skip := skip + {key};
      } else {
        write := write + {key};
        if clean { written := written + {key}; }
      }
    }
  }

  /** Removes the cached versions that are not written from the index. */
  method PurgeCachedKeys(index: Index, slot: Slot, skip: set<Pubkey>) returns (purged: Index)
    ensures purged == FlushIndex(index, slot, skip, {}, {})
  {
    purged := index;
    var todo := skip;
    while todo != {}
      invariant todo <= skip
      invariant purged == FlushIndex(index, slot, skip - todo, {}, {})
      decreases todo
    {
      var key :| key in todo;
      todo := todo - {key};
      purged := purged - {(key, slot)};
    }
    assert skip - {} == skip;
  }

  lemma OutdatedNext(index: Index, slot: Slot, done: set<Pubkey>, key: Pubkey, reclaim: bool)
    ensures Outdated(index, slot, done + {key}, reclaim) ==
      Outdated(index, slot, done, reclaim) + Outdated(index, slot, {key}, reclaim)
  {}

  /** Upserts one key: its cached version becomes a stored one, and with reclaiming its older stored versions go. */
  function UpsertIndex(index: Index, slot: Slot, key: Pubkey, outdated: set<Pair>): Index {
    (map p | p in index && p !in outdated :: index[p])[(key, slot) := Stored]
  }

  lemma UpsertNext(index: Index, slot: Slot, done: set<Pubkey>, key: Pubkey, reclaim: bool)
    requires key !in done && (key, slot) in index
    ensures var outdated := Outdated(index, slot, done, reclaim);
      var now := FlushIndex(index, slot, {}, done, outdated);
      && Outdated(now, slot, {key}, reclaim) == Outdated(index, slot, {key}, reclaim)
      && FlushIndex(index, slot, {}, done + {key}, Outdated(index, slot, done + {key}, reclaim))
           == UpsertIndex(now, slot, key, Outdated(now, slot, {key}, reclaim))
  {
    var outdated := Outdated(index, slot, done, reclaim);
    var now := FlushIndex(index, slot, {}, done, outdated);
    OutdatedNext(index, slot, done, key, reclaim);
    assert (key, slot) !in outdated;
    var more, own := Outdated(index, slot, done + {key}, reclaim), Outdated(now, slot, {key}, reclaim);
    var a, b := FlushIndex(index, slot, {}, done + {key}, more), UpsertIndex(now, slot, key, own);
    forall p | p in a ensures p in b && a[p] == b[p] { assert p == (p.0, p.1); }
    forall p | p in b ensures p in a { assert p == (p.0, p.1); }
  }

  lemma SlotsNext(index: Index, slot: Slot, done: set<Pubkey>, key: Pubkey, reclaim: bool, k: Pubkey)
    requires key !in done
    ensures k in done ==>
      SlotsOf(Outdated(index, slot, done + {key}, reclaim), k) == SlotsOf(Outdated(index, slot, done, reclaim), k)
    ensures SlotsOf(Outdated(index, slot, done + {key}, reclaim), key) ==
      SlotsOf(Outdated(index, slot, {key}, reclaim), key)
  {
    var before, after := Outdated(index, slot, done, reclaim), Outdated(index, slot, done + {key}, reclaim);
    forall x: Slot ensures k in done ==> ((k, x) in after <==> (k, x) in before) {}
    forall x: Slot ensures (key, x) in after <==> (key, x) in Outdated(index, slot, {key}, reclaim) {}
  }

  lemma RefsNext(refs: Refs, index: Index, slot: Slot, done: set<Pubkey>, key: Pubkey, reclaim: bool)
    requires key !in done
    ensures var before, after := Outdated(index, slot, done, reclaim), Outdated(index, slot, done + {key}, reclaim);
      var now := FlushRefs(refs, done, before);
      FlushRefs(refs, done + {key}, after) ==
        now[key := Ref(now, key) + 1 - |SlotsOf(Outdated(index, slot, {key}, reclaim), key)|]
  {
    hide Outdated, SlotsOf, FlushRefs;
    forall k | k in done
      ensures SlotsOf(Outdated(index, slot, done + {key}, reclaim), k) ==
        SlotsOf(Outdated(index, slot, done, reclaim), k)
    {
      SlotsNext(index, slot, done, key, reclaim, k);
    }
    SlotsNext(index, slot, done, key, reclaim, key);
    OneMoreRef(refs, done, key, Outdated(index, slot, done, reclaim), Outdated(index, slot, done + {key}, reclaim));
  }

  lemma OneMoreRef(refs: Refs, done: set<Pubkey>, key: Pubkey, before: set<Pair>, after: set<Pair>)
    requires key !in done && forall k | k in done :: SlotsOf(after, k) == SlotsOf(before, k)
    ensures var now := FlushRefs(refs, done, before);
      FlushRefs(refs, done + {key}, after) == now[key := Ref(now, key) + 1 - |SlotsOf(after, key)|]
  {
    hide SlotsOf;
    var now := FlushRefs(refs, done, before);
    var a, b := FlushRefs(refs, done + {key}, after), now[key := Ref(now, key) + 1 - |SlotsOf(after, key)|];
    assert Ref(now, key) == Ref(refs, key);
    forall k | k in a ensures k in b && a[k] == b[k] {}
    forall k | k in b ensures k in a {}
  }

  lemma UpsertNone(index: Index, refs: Refs, slot: Slot, reclaim: bool)
    ensures Outdated(index, slot, {}, reclaim) == {}
    ensures FlushIndex(index, slot, {}, {}, {}) == index && FlushRefs(refs, {}, {}) == refs
  {}

  /** Points the index at the new storage, key by key, collecting what is reclaimed. */
  method UpsertKeys(index: Index, refs: Refs, slot: Slot, write: set<Pubkey>, reclaim: bool)
    returns (updated: Index, counted: Refs, reclaims: set<Pair>)
    requires forall k | k in write :: (k, slot) in index
    ensures reclaims == Outdated(index, slot, write, reclaim)
    ensures updated == FlushIndex(index, slot, {}, write, reclaims)
    ensures counted == FlushRefs(refs, write, reclaims)
  {
    hide FlushIndex, FlushRefs, Outdated, UpsertIndex, SlotsOf;
    updated, counted, reclaims := index, refs, {};
    var todo := write;
    ghost var done := {};
    UpsertNone(index, refs, slot, reclaim);
    while todo != {}
      invariant todo <= write && done == write - todo
      invariant reclaims == Outdated(index, slot, done, reclaim)
      invariant updated == FlushIndex(index, slot, {}, done, reclaims)
      invariant counted == FlushRefs(refs, done, reclaims)
      decreases todo
    {
      var key :| key in todo;
      todo := todo - {key};
      UpsertNext(index, slot, done, key, reclaim);
      RefsNext(refs, index, slot, done, key, reclaim);
      OutdatedNext(index, slot, done, key, reclaim);
      var outdated := Outdated(updated, slot, {key}, reclaim);
      updated := UpsertIndex(updated, slot, key, outdated);
      counted := counted[key := Ref(counted, key) + 1 - |SlotsOf(outdated, key)|];
      reclaims := reclaims + outdated;
      done := done + {key};
    }
    assert done == write;
  }

  /** The storages worked through so far: those left without entries are dead, the others are marked. */
  ghost predicate Marked(index: Index, stores: Stores, reclaims: set<Pair>, done: set<Slot>, kept: Stores,
                         dead: set<Slot>) {
    && dead == (set x | x in Emptied(index, stores, reclaims) && x in done)
    && kept.Keys == stores.Keys
    && forall x | x in stores :: kept[x] ==
         if x in done && x !in dead then Store(stores[x].accounts, stores[x].obsolete + KeysAt(reclaims, x))
           else stores[x]
  }

  lemma MarkedNone(index: Index, stores: Stores, reclaims: set<Pair>)
    ensures Marked(index, stores, reclaims, {}, stores, {})
  {}

  lemma MarkedNext(index: Index, stores: Stores, reclaims: set<Pair>, done: set<Slot>, kept: Stores, dead: set<Slot>,
                   x: Slot)
    requires Marked(index, stores, reclaims, done, kept, dead) && x !in done && KeysAt(reclaims, x) != {}
    ensures x !in stores ==> Marked(index, stores, reclaims, done + {x}, kept, dead)
    ensures x in stores && (forall q | q in index :: q.1 != x) ==>
      Marked(index, stores, reclaims, done + {x}, kept, dead + {x})
    ensures x in stores && (exists q | q in index :: q.1 == x) ==>
      Marked(index, stores, reclaims, done + {x},
        kept[x := Store(stores[x].accounts, stores[x].obsolete + KeysAt(reclaims, x))], dead)
  {
    assert x in Emptied(index, stores, reclaims) <==> x in stores && forall q | q in index :: q.1 != x;
  }

  lemma MarkedAll(index: Index, stores: Stores, reclaims: set<Pair>, done: set<Slot>, kept: Stores, dead: set<Slot>)
    requires Marked(index, stores, reclaims, done, kept, dead)
    requires forall p | p in reclaims :: p.1 in done
    ensures dead == Emptied(index, stores, reclaims)
    ensures kept - dead == MarkObsolete(stores, reclaims, dead)
  {
    forall x | x in stores && x !in done ensures KeysAt(reclaims, x) == {} {
      forall k ensures k !in KeysAt(reclaims, x) { assert (k, x) in reclaims ==> (k, x).1 in done; }
    }
    forall x | x in stores && x !in done ensures stores[x].obsolete + KeysAt(reclaims, x) == stores[x].obsolete {}
    var a, b := kept - dead, MarkObsolete(stores, reclaims, dead);
    forall x | x in b ensures x in a && a[x] == b[x] {}
  }

  /** The reclaims were stored entries, and what is left in the storages' slots are the others. */
  ghost predicate Reclaimable(before: Index, index: Index, stores: Stores, reclaims: set<Pair>) {
    && (forall p | p in reclaims :: p in before && before[p].Stored?)
    && (forall p: Pair | p.1 in stores :: p in index <==> p in before && p !in reclaims)
    && (forall p | p in before && p.1 in stores :: before[p].Stored?)
    && (forall p | p in index && p.1 in stores :: index[p].Stored?)
  }

  /** A storage loses as many alive accounts as it has reclaims. */
  lemma CountFalls(before: Index, index: Index, stores: Stores, reclaims: set<Pair>, x: Slot)
    requires Reclaimable(before, index, stores, reclaims) && x in stores
    ensures AliveCount(before, x) == AliveCount(index, x) + ReclaimCount(reclaims, x)
    ensures AliveCount(index, x) == 0 <==> forall q | q in index :: q.1 != x
  {
    var was, now, lost := AliveAt(before, x), AliveAt(index, x), KeysAt(reclaims, x);
    forall k ensures k in was <==> k in now || k in lost {
      assert (k, x) in index <==> (k, x) in before && (k, x) !in reclaims;
    }
    assert now !! lost by {
      forall k | k in now ensures k !in lost { assert (k, x) in index; }
    }
    assert was == now + lost;
    if q :| q in index && q.1 == x {
      assert q == (q.0, x) && q.0 in now;
    } else {
      forall k ensures k !in now { assert (k, x).1 == x; }
      assert now == {};
    }
  }

  function ReclaimCount(reclaims: set<Pair>, x: Slot): nat {
    |KeysAt(reclaims, x)|
  }

  /** The counters after the slots worked through so far. */
  ghost predicate Lowered(before: Index, index: Index, stores: Stores, counts: map<Slot, nat>, done: set<Slot>) {
    counts.Keys == stores.Keys && forall x | x in stores ::
      counts[x] == AliveCount(if x in done then index else before, x)
  }

  lemma LoweredNext(before: Index, index: Index, stores: Stores, reclaims: set<Pair>, counts: map<Slot, nat>,
                    done: set<Slot>, x: Slot)
    requires Reclaimable(before, index, stores, reclaims) && Lowered(before, index, stores, counts, done) && x !in done
    ensures x !in stores ==> Lowered(before, index, stores, counts, done + {x})
    ensures x in stores ==>
      && x in counts && counts[x] >= ReclaimCount(reclaims, x)
      && Lowered(before, index, stores, counts[x := counts[x] - ReclaimCount(reclaims, x)], done + {x})
      && (counts[x] - ReclaimCount(reclaims, x) == 0 <==> forall q | q in index :: q.1 != x)
  {
    hide AliveCount, ReclaimCount, Reclaimable;
    if x in stores { CountFalls(before, index, stores, reclaims, x); }
  }

  lemma LoweredAll(before: Index, index: Index, stores: Stores, reclaims: set<Pair>, counts: map<Slot, nat>,
                   done: set<Slot>, kept: Stores)
    requires Reclaimable(before, index, stores, reclaims) && Lowered(before, index, stores, counts, done)
    requires (forall p | p in reclaims :: p.1 in done) && kept.Keys <= stores.Keys
    ensures (map x | x in counts && x in kept :: counts[x]) == AliveCounts(index, kept)
  {
    hide AliveCount, Reclaimable;
    forall x | x in kept ensures counts[x] == AliveCount(index, x) {
      if x !in done {
        CountFalls(before, index, stores, reclaims, x);
        NoReclaims(reclaims, done, x);
      }
    }
  }

  lemma NoReclaims(reclaims: set<Pair>, done: set<Slot>, x: Slot)
    requires (forall p | p in reclaims :: p.1 in done) && x !in done
    ensures ReclaimCount(reclaims, x) == 0
  {
    forall k ensures k !in KeysAt(reclaims, x) { assert (k, x) in reclaims ==> (k, x).1 in done; }
    assert KeysAt(reclaims, x) == {};
  }

  /** Works through the reclaimed slots: a storage whose count falls to zero is dead, the others are marked obsolete. */
  method RemoveDeadAccounts(ghost before: Index, ghost index: Index, stores: Stores, counts: map<Slot, nat>,
                            reclaims: set<Pair>)
    returns (kept: Stores, dead: set<Slot>, lowered: map<Slot, nat>)
    requires Reclaimable(before, index, stores, reclaims) && counts == AliveCounts(before, stores)
    ensures dead == Emptied(index, stores, reclaims)
    ensures kept == MarkObsolete(stores, reclaims, dead)
    ensures lowered == AliveCounts(index, kept)
  {
    hide Marked, Emptied, MarkObsolete, Lowered, Reclaimable, AliveCounts, ReclaimSlots;
    kept, dead, lowered := stores, {}, counts;
    var todo := ReclaimSlots(reclaims);
    ghost var slots: set<Slot> := todo;
    ghost var done: set<Slot> := {};
    MarkedNone(index, stores, reclaims);
    LoweredNone(before, index, stores);
    while todo != {}
      invariant todo <= slots && done == slots - todo
      invariant Marked(index, stores, reclaims, done, kept, dead)
      invariant Lowered(before, index, stores, lowered, done)
      decreases todo
    {
      var x :| x in todo;
      todo := todo - {x};
      kept, dead, lowered := RemoveFrom(before, index, stores, reclaims, done, kept, dead, lowered, x);
      done := done + {x};
    }
    MarkedAll(index, stores, reclaims, done, kept, dead);
    kept := kept - dead;
    MarkedSlots(stores, reclaims, dead);
    LoweredAll(before, index, stores, reclaims, lowered, done, kept);
    lowered := map x | x in lowered && x in kept :: lowered[x];
  }

  /** Lowers the counter of one slot by its reclaims. */
  method RemoveFrom(ghost before: Index, ghost index: Index, stores: Stores, reclaims: set<Pair>, ghost done: set<Slot>,
                    kept: Stores, dead: set<Slot>, counts: map<Slot, nat>, x: Slot)
    returns (kept': Stores, dead': set<Slot>, counts': map<Slot, nat>)
    requires Reclaimable(before, index, stores, reclaims) && x !in done && KeysAt(reclaims, x) != {}
    requires Marked(index, stores, reclaims, done, kept, dead) && Lowered(before, index, stores, counts, done)
    ensures Marked(index, stores, reclaims, done + {x}, kept', dead') &&
      Lowered(before, index, stores, counts', done + {x})
  {
    hide Marked, Lowered, Reclaimable, ReclaimCount;
    MarkedNext(index, stores, reclaims, done, kept, dead, x);
    LoweredNext(before, index, stores, reclaims, counts, done, x);
    kept', dead', counts' := kept, dead, counts;
    if x in stores {
      var remaining := counts[x] - ReclaimCount(reclaims, x);
      counts' := counts[x := remaining];
      if remaining == 0 {
        dead' := dead + {x};
      } else {
        kept' := kept[x := Store(stores[x].accounts, stores[x].obsolete + KeysAt(reclaims, x))];
      }
    }
  }

  function ReclaimSlots(reclaims: set<Pair>): (slots: set<Slot>)
    ensures (forall p | p in reclaims :: p.1 in slots) && forall x | x in slots :: KeysAt(reclaims, x) != {}
  {
    assert forall p | p in reclaims :: (p.0, p.1) in reclaims && p.0 in KeysAt(reclaims, p.1);
    set p | p in reclaims :: p.1
  }

  lemma LoweredNone(before: Index, index: Index, stores: Stores)
    ensures Lowered(before, index, stores, AliveCounts(before, stores), {})
  {}

  // ---------------------------------------------------------------- the parts of a clean

  /** The records of the dead storages that still carry a reference. */
  function DeadRecords(stores: Stores, dead: set<Slot>): (pairs: set<Pair>)
    ensures forall p :: p in pairs <==> p.1 in dead && HoldsKey(stores, p.1, p.0)
  {
    var all := set x, k | x in stores && x in dead && k in stores[x].accounts && HoldsKey(stores, x, k) :: (k, x);
    assert forall p: Pair :: p in all <==> p == (p.0, p.1) && p.1 in dead && HoldsKey(stores, p.1, p.0);
    all
  }

  ghost function Taken(pairs: set<Pair>, k: Pubkey): nat {
    |SlotsOf(pairs, k)|
  }

  ghost function UnrefPairs(refs: Refs, pairs: set<Pair>, removed: set<Pubkey>): Refs {
    map k | k in refs && k !in removed :: refs[k] - Taken(pairs, k)
  }

  lemma TakenNext(done: set<Pair>, p: Pair, k: Pubkey)
    requires p !in done
    ensures Taken(done + {p}, k) == Taken(done, k) + if k == p.0 then 1 else 0
  {
    assert p == (p.0, p.1);
    if k == p.0 {
      assert p.1 !in SlotsOf(done, k);
      assert SlotsOf(done + {p}, k) == SlotsOf(done, k) + {p.1};
    } else {
      assert SlotsOf(done + {p}, k) == SlotsOf(done, k);
    }
  }

  lemma UnrefNext(refs: Refs, done: set<Pair>, removed: set<Pubkey>, p: Pair)
    requires p !in done
    ensures var now := UnrefPairs(refs, done, removed);
      UnrefPairs(refs, done + {p}, removed) == if p.0 in now then now[p.0 := now[p.0] - 1] else now
  {
    hide Taken;
    forall k: Pubkey ensures Taken(done + {p}, k) == Taken(done, k) + if k == p.0 then 1 else 0 {
      TakenNext(done, p, k);
    }
  }

  lemma TakenAll(stores: Stores, dead: set<Slot>, k: Pubkey)
    ensures Taken(DeadRecords(stores, dead), k) == |Holders(stores, k) * dead|
  {
    assert SlotsOf(DeadRecords(stores, dead), k) == Holders(stores, k) * dead;
  }

  lemma UnrefAll(refs: Refs, stores: Stores, dead: set<Slot>, removed: set<Pubkey>)
    ensures UnrefPairs(refs, DeadRecords(stores, dead), removed) == Unref(refs, stores, dead, removed)
  {
    hide Taken, DeadRecords;
    forall k: Pubkey ensures Taken(DeadRecords(stores, dead), k) == |Holders(stores, k) * dead| {
      TakenAll(stores, dead, k);
    }
  }

  /** Takes one reference per record of a dead storage, except from keys already gone from the index. */
  method UnrefPubkeys(refs: Refs, ghost stores: Stores, ghost dead: set<Slot>, records: set<Pair>, removed: set<Pubkey>)
    returns (counted: Refs)
    requires records == DeadRecords(stores, dead)
    ensures counted == Unref(refs, stores, dead, removed)
  {
    hide DeadRecords, Unref, UnrefPairs;
    counted := refs - removed;
    var todo := records;
    ghost var done := {};
    UnrefNone(refs, removed);
    while todo != {}
      invariant todo <= records && done == records - todo
      invariant counted == UnrefPairs(refs, done, removed)
      decreases todo
    {
      var p :| p in todo;
      todo := todo - {p};
      UnrefNext(refs, done, removed, p);
      if p.0 in counted { counted := counted[p.0 := counted[p.0] - 1]; }
      done := done + {p};
    }
    assert done == records;
    UnrefAll(refs, stores, dead, removed);
  }

  lemma UnrefNone(refs: Refs, removed: set<Pubkey>)
    ensures UnrefPairs(refs, {}, removed) == refs - removed
  {
    hide Taken;
    forall k: Pubkey ensures Taken({}, k) == 0 { TakenNone(k); }
  }

  lemma TakenNone(k: Pubkey)
    ensures Taken({}, k) == 0
  {
    assert SlotsOf({}, k) == {};
  }

  // ---------------------------------------------------------------- the database

  lemma TwoPassIndex(index: Index, slot: Slot, skip: set<Pubkey>, write: set<Pubkey>, reclaim: bool)
    requires skip !! write
    ensures var purged := FlushIndex(index, slot, skip, {}, {});
      && Outdated(purged, slot, write, reclaim) == Outdated(index, slot, write, reclaim)
      && FlushIndex(purged, slot, {}, write, Outdated(index, slot, write, reclaim))
           == FlushIndex(index, slot, skip, write, Outdated(index, slot, write, reclaim))
  {}

  lemma WritesAreIndexed(index: Index, cache: Cache, slot: Slot, skip: set<Pubkey>, write: set<Pubkey>)
    requires slot in cache && CacheMatches(index, cache) && write == cache[slot].Keys - skip
    ensures forall k | k in write :: (k, slot) in FlushIndex(index, slot, skip, {}, {})
  {}

  /** Points the index at the cache, key by key. */
  method IndexCached(index: Index, slot: Slot, keys: set<Pubkey>) returns (updated: Index)
    ensures updated == index + (map p | p in Pairs(keys, slot) :: Location.Cached)
  {
    updated := index;
    var todo := keys;
    while todo != {}
      invariant todo <= keys
      invariant updated == index + (map p | p in Pairs(keys - todo, slot) :: Location.Cached)
      decreases todo
    {
      var key :| key in todo;
      todo := todo - {key};
      updated := updated[(key, slot) := Location.Cached];
    }
    assert keys - {} == keys;
  }

  /** What clean and purge collect, key by key. */
  method CollectOlder(index: Index, roots: set<Slot>, keys: set<Pubkey>, bound: Slot) returns (gone: set<Pair>)
    ensures gone == Older(index, roots, keys, bound)
  {
    gone := {};
    var todo := keys;
    while todo != {}
      invariant todo <= keys && gone == Older(index, roots, keys - todo, bound)
      decreases todo
    {
      var key :| key in todo;
      todo := todo - {key};
      gone := gone + Older(index, roots, {key}, bound);
    }
    assert keys - {} == keys;
  }

  /** Sorts the records of a storage into alive ones, dead ones, and zero-lamport ones that nothing else refers to. */
  method ShrinkCollect(index: Index, refs: Refs, slot: Slot, store: Store, snapshot: Option<Slot>)
    returns (alive: set<Pubkey>, unref: set<Pubkey>, zero: set<Pubkey>)
    ensures alive + unref + zero == store.accounts.Keys - store.obsolete && alive !! unref !! zero
    ensures unref == (store.accounts.Keys - store.obsolete) - AliveAt(index, slot)
    ensures forall k :: k in zero <==>
      && k in store.accounts.Keys - store.obsolete && (k, slot) in index && index[(k, slot)].Stored?
      && (snapshot.None? || slot <= snapshot.value)
      && store.accounts[k].lamports == 0 && k in refs && refs[k] == 1
  {
    var mayDrop := snapshot.None? || snapshot.value >= slot;
    alive, unref, zero := {}, {}, {};
    var records := store.accounts.Keys - store.obsolete;
    var todo := records;
    while todo != {}
      invariant todo <= records && alive + unref + zero == records - todo && alive !! unref !! zero
      invariant unref == records - todo - AliveAt(index, slot)
      invariant forall k :: k in zero <==>
        k in records - todo && k in AliveAt(index, slot) && mayDrop && store.accounts[k].IsZeroLamport() &&
        Ref(refs, k) == 1
      decreases todo
    {
      var key :| key in todo;
      todo := todo - {key};
      if !((key, slot) in index && index[(key, slot)].Stored?) {
        unref := unref + {key};
      } else if mayDrop && store.accounts[key].IsZeroLamport() && Ref(refs, key) == 1 {
        zero := zero + {key};
      } else {
        alive := alive + {key};
      }
    }
  }

  /** Entries into a storage are stored ones. */
  ghost predicate StoresApart(index: Index, cache: Cache, stores: Stores) {
    CacheMatches(index, cache) && StoredMatches(index, stores) && stores.Keys !! cache.Keys
  }

  lemma CoreIsApart(db: Db)
    requires Core(db)
    ensures StoresApart(db.index, db.cache, db.stores)
  {}

  lemma FlushReclaimable(index: Index, cache: Cache, stores: Stores, slot: Slot, skip: set<Pubkey>, write: set<Pubkey>,
                         reclaim: bool)
    requires slot in cache && StoresApart(index, cache, stores)
    ensures var reclaims := Outdated(index, slot, write, reclaim);
      Reclaimable(index, FlushIndex(index, slot, skip, write, reclaims), stores, reclaims)
  {}

  lemma FlushedAlive(index: Index, cache: Cache, stores: Stores, slot: Slot, skip: set<Pubkey>, write: set<Pubkey>,
                     reclaims: set<Pair>)
    requires slot in cache && StoresApart(index, cache, stores) && write == cache[slot].Keys - skip
    requires forall p | p in reclaims :: p.1 < slot
    ensures AliveAt(FlushIndex(index, slot, skip, write, reclaims), slot) == write
  {
    var index' := FlushIndex(index, slot, skip, write, reclaims);
    forall k | k in write ensures k in AliveAt(index', slot) { assert (k, slot) in index; }
    forall k | k in AliveAt(index', slot) ensures k in write {
      assert (k, slot) in index;
      assert HoldsKey(stores, slot, k) ==> slot in stores;
    }
  }

  /** The new storage counts what was written. */
  lemma FlushedCounts(index: Index, write: set<Pubkey>, slot: Slot, kept: Stores, store: Store)
    requires AliveAt(index, slot) == write && slot !in kept
    ensures AliveCounts(index, kept)[slot := |write|] == AliveCounts(index, kept[slot := store])
  {}

  /** The flush of one slot on the parts of the database. */
  method FlushAccounts(ghost was: Db, index: Index, refs: Refs, roots: set<Slot>, cache: Cache, stores: Stores,
                       counts: map<Slot, nat>,
                       slot: Slot, before: set<Pubkey>, clean: bool, mark: bool)
    returns (index': Index, refs': Refs, roots': set<Slot>, cache': Cache, stores': Stores, counts': map<Slot, nat>,
             ghost cleaned': Slot, written: set<Pubkey>)
    requires was == Db(index, refs, roots, cache, stores, was.ever, was.history, was.cleaned)
    requires CanFlush(was, slot) && StoresApart(index, cache, stores) && counts == AliveCounts(index, stores)
    ensures Db(index', refs', roots', cache', stores', was.ever, was.history, cleaned') ==
      FlushSlot(was, slot, before, clean, mark)
    ensures written == NowWritten(cache, slot, before, clean)
    ensures counts' == AliveCounts(index', stores')
  {
    hide FlushIndex, FlushRefs, Outdated, Emptied, MarkObsolete, FlushSlot, Restrict, CacheMatches, AliveCounts,
      Reclaimable;
    var accounts := cache[slot];
    var write, skip: set<Pubkey>;
    write, skip, written := ChooseWrites(accounts.Keys, before, clean);
    TwoPassIndex(index, slot, skip, write, clean && mark);
    WritesAreIndexed(index, cache, slot, skip, write);
    FlushReclaimable(index, cache, stores, slot, skip, write, clean && mark);
    index' := PurgeCachedKeys(index, slot, skip);
    var reclaims: set<Pair>;
    index', refs', reclaims := UpsertKeys(index', refs, slot, write, clean && mark);
    var kept, dead, lowered := RemoveDeadAccounts(index, index', stores, counts, reclaims);
    roots' := roots - dead;
    if write == {} {
      roots' := roots' - {slot};
      stores', counts' := kept, lowered;
    } else {
      stores', counts' := kept[slot := Store(Restrict(accounts, write), {})], lowered[slot := |write|];
      MarkedSlots(stores, reclaims, dead);
      FlushedAlive(index, cache, stores, slot, skip, write, reclaims);
      FlushedCounts(index', write, slot, kept, Store(Restrict(accounts, write), {}));
    }
    cache' := cache - {slot};
    cleaned' := if clean then Max(was.cleaned, slot) else was.cleaned;
    FlushedParts(was, Db(index', refs', roots', cache', stores', was.ever, was.history, cleaned'),
                 slot, before, clean, mark, write, skip, reclaims, kept, dead);
  }

  lemma MarkedSlots(stores: Stores, reclaims: set<Pair>, dead: set<Slot>)
    ensures MarkObsolete(stores, reclaims, dead).Keys == stores.Keys - dead
  {}

  lemma CleanReclaimable(index: Index, cache: Cache, stores: Stores, gone: set<Pair>)
    requires StoresApart(index, cache, stores) && forall p | p in gone :: p in index && index[p].Stored?
    ensures Reclaimable(index, (map p | p in index && p !in gone :: index[p]), stores, gone)
  {}

  /** What clean and purge do with the entries they took, on the parts of the database. */
  method ReclaimParts(ghost was: Db, index: Index, refs: Refs, roots: set<Slot>, stores: Stores, counts: map<Slot, nat>,
                      gone: set<Pair>, removed: set<Pubkey>)
    returns (index': Index, refs': Refs, roots': set<Slot>, stores': Stores, counts': map<Slot, nat>)
    requires was == Db(index, refs, roots, was.cache, stores, was.ever, was.history, was.cleaned)
    requires StoresApart(index, was.cache, stores) && forall p | p in gone :: p in index && index[p].Stored?
    requires counts == AliveCounts(index, stores)
    ensures Db(index', refs', roots', was.cache, stores', was.ever, was.history, was.cleaned) ==
      Reclaim(was, gone, removed)
    ensures counts' == AliveCounts(index', stores')
  {
    CleanReclaimable(index, was.cache, stores, gone);
    hide StoresApart, AliveCounts, Emptied, Unref, MarkObsolete, Reclaimable;
    index' := map p | p in index && p !in gone :: index[p];
    var kept, dead, lowered := RemoveDeadAccounts(index, index', stores, counts, gone);
    SameCounts(index', stores, gone, dead);
    refs' := UnrefPubkeys(refs, stores, dead, DeadRecords(stores, dead), removed);
    roots', stores', counts' := roots - dead, stores - dead, lowered;
  }

  /** The shrink of one storage on the parts of the database. */
  method ShrinkAccounts(ghost was: Db, index: Index, refs: Refs, stores: Stores, counts: map<Slot, nat>, slot: Slot,
                        snapshot: Option<Slot>)
    returns (index': Index, refs': Refs, stores': Stores, counts': map<Slot, nat>, ghost zero: set<Pubkey>)
    requires was == Db(index, refs, was.roots, was.cache, stores, was.ever, was.history, was.cleaned)
    requires Inv(was) && slot in stores && counts == AliveCounts(index, stores)
    ensures CanShrink(was, slot, zero)
    ensures forall k :: k in zero <==>
      && (k, slot) in index && index[(k, slot)].Stored? && (snapshot.None? || slot <= snapshot.value)
      && k in stores[slot].accounts && stores[slot].accounts[k].lamports == 0 && k in refs && refs[k] == 1
    ensures Db(index', refs', was.roots, was.cache, stores', was.ever, was.history, was.cleaned) ==
      Shrink(was, slot, zero)
    ensures counts' == AliveCounts(index', stores')
  {
    hide Inv, Core, DropEntries, DropRefs, Restrict, AliveCounts, Dropped;
    index', refs', stores', counts' := index, refs, stores, counts;
    var store := stores[slot];
    var alive, unref, dropped := ShrinkCollect(index, refs, slot, store, snapshot);
    zero := dropped;
    AliveHolds(was, slot);
    ShrinkParts(was, slot, alive, unref, zero);
    if alive != {} {
      ShrunkCounts(index, stores, slot, dropped, alive, Store(Restrict(store.accounts, alive), {}));
      refs' := DropRefs(refs, unref + dropped);
      counts' := counts[slot := |alive|];
      stores' := stores[slot := Store(Restrict(store.accounts, alive), {})];
      index' := DropEntries(index, slot, dropped);
    }
  }

  lemma AliveHolds(was: Db, slot: Slot)
    requires Inv(was) && slot in was.stores
    ensures forall k | (k, slot) in was.index && was.index[(k, slot)].Stored? ::
      k in was.stores[slot].accounts && k !in was.stores[slot].obsolete
  {
    forall k | (k, slot) in was.index && was.index[(k, slot)].Stored?
      ensures k in was.stores[slot].accounts && k !in was.stores[slot].obsolete
    {
      assert HoldsKey(was.stores, (k, slot).1, (k, slot).0);
    }
  }

  class AccountsDb {
    var index: Index
    var refs: Refs
    var roots: set<Slot>
    var cache: Cache
    var stores: Stores
    var counts: map<Slot, nat>  // the alive accounts of each storage
    ghost var ever: set<Slot>
    ghost var history: Cache
    ghost var cleaned: Slot

    ghost function State(): Db
      reads this
    {
      Db(index, refs, roots, cache, stores, ever, history, cleaned)
    }

    /** Every counter is the number of index entries into its storage. */
    ghost predicate Counted()
      reads this
    {
      counts == AliveCounts(index, stores)
    }

    constructor ()
      ensures State() == EMPTY && Counted()
    {
      index, refs, roots, cache, stores, counts := map[], map[], {}, map[], map[], map[];
      ever, history, cleaned := {}, map[], 0;
    }

    /** Stores accounts of an unrooted slot in the write cache and points the index at them. */
    method StoreAccountsUnfrozen(slot: Slot, accounts: map<Pubkey, Account>)
      requires Inv(State()) && Counted() && CanStore(State(), slot)
      modifies this
      ensures State() == StoreAccounts(old(State()), slot, accounts) && Inv(State()) && Counted()
      ensures forall x, k :: x in cache && k in cache[x] <==>
        (x in old(cache) && k in old(cache[x])) || (x == slot && k in accounts)
      ensures forall k | k in accounts :: cache[slot][k] == accounts[k]
      ensures forall x, k | x in cache && k in cache[x] && !(x == slot && k in accounts) ::
        cache[x][k] == old(cache)[x][k]
      ensures forall p :: p in index <==> p in old(index) || (p.1 == slot && p.0 in accounts)
      ensures forall p | p in index ::
        index[p] == if p.1 == slot && p.0 in accounts then Location.Cached else old(index)[p]
      ensures refs == old(refs) && roots == old(roots) && stores == old(stores) && counts == old(counts)
    {
      hide Inv, AliveCounts, StoreAccounts, CanStore;
      StoreEffect(State(), slot, accounts);
      WriteToCache(slot, accounts);
    }

    method WriteToCache(slot: Slot, accounts: map<Pubkey, Account>)
      requires Inv(State()) && Counted() && CanStore(State(), slot)
      modifies this
      ensures State() == StoreAccounts(old(State()), slot, accounts) && Inv(State()) && Counted()
      ensures counts == old(counts)
    {
      if accounts == map[] { return; }
      StoreSparesCounts(State(), slot, accounts);
      hide Inv, AliveCounts;
      StoreAccountsKeeps(State(), slot, accounts);
      cache := cache[slot := CacheOf(cache, slot) + accounts];
      history := history[slot := cache[slot]];
      index := IndexCached(index, slot, accounts.Keys);
    }

    method AddRootSlot(slot: Slot)
      requires Inv(State()) && Counted() && CanAddRoot(State(), slot)
      modifies this
      ensures State() == AddRoot(old(State()), slot) && Inv(State()) && Counted()
      ensures roots == old(roots) + {slot} && ever == old(ever) + {slot} && index == old(index) && cache == old(cache)
      ensures refs == old(refs) && stores == old(stores)
    {
      AddRootKeeps(State(), slot);
      roots, ever := roots + {slot}, ever + {slot};
    }

    /** Takes stored entries out of the index, and removes the storages whose counts fall to zero. */
    method HandleReclaims(gone: set<Pair>, removed: set<Pubkey>)
      requires Counted() && StoresApart(index, cache, stores) && forall p | p in gone :: p in index && index[p].Stored?
      modifies this
      ensures State() == Reclaim(old(State()), gone, removed) && Counted()
      ensures forall p :: p in index <==> p in old(index) && p !in gone
      ensures forall p | p in index :: index[p] == old(index)[p]
      ensures forall x :: x in stores <==>
        x in old(stores) && ((forall k :: (k, x) !in gone) || exists p | p in old(index) :: p.1 == x && p !in gone)
      ensures forall x | x in stores :: stores[x] == old(stores)[x]
      ensures roots == old(roots) - (old(stores).Keys - stores.Keys) && cache == old(cache)
    {
      ReclaimEffect(State(), gone, removed);
      hide AliveCounts, Reclaim, StoresApart;
      index, refs, roots, stores, counts := ReclaimParts(State(), index, refs, roots, stores, counts, gone, removed);
    }

    /** Cleans the outdated stored versions of the keys. */
    method CleanAccountsOlderThanRoot(keys: set<Pubkey>, bound: Slot)
      requires Inv(State()) && Counted()
      modifies this
      ensures State() == CleanOlder(old(State()), keys, bound) && Inv(State()) && Counted()
      ensures forall p :: p in index <==>
        p in old(index) &&
        !(old(index)[p].Stored? && p.0 in keys && p.1 < bound &&
          (p.1 !in old(roots) || exists q | q in old(index) :: q.0 == p.0 && q.1 in old(roots) && p.1 < q.1 <= bound))
      ensures forall x :: x in stores <==>
        x in old(stores) &&
        ((forall p | p in old(index) && p.1 == x :: p in index) || exists p | p in index :: p.1 == x)
    {
      hide Inv, AliveCounts, CleanOlder;
      CleanOlderEffect(State(), keys, bound);
      ReclaimOlder(keys, bound);
    }

    method ReclaimOlder(keys: set<Pubkey>, bound: Slot)
      requires Inv(State()) && Counted()
      modifies this
      ensures State() == CleanOlder(old(State()), keys, bound) && Inv(State()) && Counted()
    {
      CleanOlderKeeps(State(), keys, bound);
      CoreIsApart(State());
      hide Inv, Core, Reclaim, StoresApart, AliveCounts;
      var gone := CollectOlder(index, roots, keys, bound);
      HandleReclaims(gone, {});
      cleaned := Max(cleaned, bound);
    }

    /** Purges zero-lamport keys from every storage that holds them. */
    method PurgeKeys(keys: set<Pubkey>, bound: Slot)
      requires Inv(State()) && Counted() && CanPurgeZero(State(), keys, bound)
      modifies this
      ensures State() == PurgeZero(old(State()), keys, bound) && Inv(State()) && Counted()
      ensures forall p :: p in index <==> p in old(index) && !(p.0 in keys && p.1 in old(roots) && p.1 <= bound)
      ensures forall x :: x in stores <==>
        x in old(stores) &&
        forall p | p in old(index) && p.1 == x :: !(p.0 in keys && x in old(roots) && x <= bound)
    {
      hide Inv, AliveCounts, PurgeZero, CanPurgeZero;
      PurgeZeroEffect(State(), keys, bound);
      ReclaimKeys(keys, bound);
    }

    method ReclaimKeys(keys: set<Pubkey>, bound: Slot)
      requires Inv(State()) && Counted() && CanPurgeZero(State(), keys, bound)
      modifies this
      ensures State() == PurgeZero(old(State()), keys, bound) && Inv(State()) && Counted()
    {
      PurgeZeroKeeps(State(), keys, bound);
      CoreIsApart(State());
      hide Inv, Core, Reclaim, StoresApart, AliveCounts;
      var gone := RootedUpTo(index, roots, keys, bound);
      HandleReclaims(gone, Removed(index, gone, keys));
      cleaned := Max(cleaned, bound);
    }

    /** A whole clean: outdated versions go first, then as many zero-lamport keys as can be purged together, except
        those that have to wait for the next full snapshot. */
    method CleanAccounts(keys: set<Pubkey>, bound: Slot, snapshot: Option<Slot>)
      returns (ghost kept: set<Pubkey>, ghost purge: set<Pubkey>, later: set<(Slot, Pubkey)>)
      requires Inv(State()) && Counted() && CleanPurge.Flushed(cache, ever, bound)
      modifies this
      ensures CleanPurge.IsCleaned(old(State()), keys, bound, snapshot, purge, State()) && Inv(State()) && Counted()
      ensures CleanPurge.IsKept(CleanOlder(old(State()), keys, bound), keys, bound, kept)
      ensures forall p | p in index && p.0 in purge && p.1 in old(roots) :: p.1 > bound
      ensures snapshot.None? || bound <= snapshot.value ==> purge == kept && later == {}
      ensures snapshot.Some? ==>
        forall p | p in old(index) && p.0 in purge && p.1 in old(roots) && p.1 <= bound :: p.1 <= snapshot.value
      ensures snapshot.Some? && snapshot.value < bound ==>
        forall k: Pubkey, x: Slot :: (x, k) in later <==>
          && k in kept && (k, x) in old(index) && x in old(roots) && snapshot.value < x <= bound
          && forall y: Slot | (k, y) in old(index) && y in old(roots) && y <= bound :: y <= x
      ensures forall k | k in kept && k !in purge :: exists x: Slot :: (x, k) in later
    {
      ghost var was := State();
      assert Core(was);
      hide CleanOlder, PurgeZero, CanPurgeZero, Inv, Core, AliveCounts, CleanPurge.IsKept;
      CleanAccountsOlderThanRoot(keys, bound);
      ghost var older := State();
      kept, purge, later := PurgeZeroLamport(was, keys, bound, snapshot);
      KeptIsZero(was, older, keys, bound, kept);
      CleanPurge.CleanWaits(was, keys, bound, snapshot, kept, purge, later);
      PurgedAreGone(was, keys, bound, purge, State());
    }

    /** What clean does once the outdated versions are gone. */
    method PurgeZeroLamport(ghost was: Db, keys: set<Pubkey>, bound: Slot, snapshot: Option<Slot>)
      returns (ghost kept: set<Pubkey>, ghost purge: set<Pubkey>, later: set<(Slot, Pubkey)>)
      requires Inv(was) && CleanPurge.Flushed(was.cache, was.ever, bound) && State() == CleanOlder(was, keys, bound)
      requires Inv(State()) && Counted()
      modifies this
      ensures CleanPurge.IsCleaned(was, keys, bound, snapshot, purge, State()) && Inv(State()) && Counted()
      ensures var older := CleanOlder(was, keys, bound);
        && RefsCover(older.refs, older.stores) && CleanPurge.IsKept(older, keys, bound, kept)
        && CleanDependencies.Waits(
             CleanPurge.CandidatesOf(older, CleanPurge.ZeroKeys(older, keys, bound), bound), kept, bound, snapshot,
               purge,
             later)
    {
      CleanPurge.OneVersionEach(was, keys, bound);
      hide CleanOlder, PurgeZero, CanPurgeZero, Inv, Core;
      ghost var older := State();
      var candidates := CleanPurge.CollectCandidates(older, index, refs, roots, stores, keys, bound);
      ghost var zero := CleanPurge.ZeroKeys(older, keys, bound);
      CleanPurge.ZeroKeysAreCandidates(older, keys, bound);
      CleanPurge.CountsCoverCandidates(older, zero, bound);
      var purged: set<Pubkey>;
      purged, later := CleanDependencies.CandidatesToPurge(candidates, counts, bound, snapshot);
      kept :| CleanDependencies.GreatestClosed(candidates, counts, kept);
      purge := purged;
      CleanDependencies.PurgeIsClosed(candidates, counts, bound, snapshot, purge);
      CleanPurge.ClosedCanBePurged(older, zero, bound, purge);
      PurgeKeys(purged, bound);
    }

    /** Rewrites a storage with its alive accounts. */
    method ShrinkStorage(slot: Slot, snapshot: Option<Slot>) returns (ghost zero: set<Pubkey>)
      requires Inv(State()) && Counted() && slot in stores
      modifies this
      ensures CanShrink(old(State()), slot, zero)
      ensures State() == Shrink(old(State()), slot, zero) && Inv(State()) && Counted()
      ensures forall k :: k in zero <==>
        && (k, slot) in old(index) && old(index)[(k, slot)].Stored? && (snapshot.None? || slot <= snapshot.value)
        && k in old(stores)[slot].accounts && old(stores)[slot].accounts[k].lamports == 0
        && k in old(refs) && old(refs)[k] == 1
      ensures (forall k | (k, slot) in old(index) && old(index)[(k, slot)].Stored? :: k in zero) ==>
        index == old(index) && refs == old(refs) && stores == old(stores)
      ensures (exists k :: k !in zero && (k, slot) in old(index) && old(index)[(k, slot)].Stored?) ==>
        && slot in stores && stores[slot].obsolete == {}
        && (forall k :: k in stores[slot].accounts <==>
              k !in zero && (k, slot) in old(index) && old(index)[(k, slot)].Stored?)
        && (forall k | k in stores[slot].accounts ::
              k in old(stores)[slot].accounts && stores[slot].accounts[k] == old(stores)[slot].accounts[k])
        && (forall p :: p in index <==> p in old(index) && !(p.1 == slot && p.0 in zero))
        && refs.Keys == old(refs).Keys
        && (forall k | k in refs :: refs[k] == old(refs)[k] -
              if k in old(stores)[slot].accounts && k !in old(stores)[slot].obsolete && k !in stores[slot].accounts
              then 1 else 0)
      ensures forall p | p in index :: p in old(index) && index[p] == old(index)[p]
      ensures forall x | x != slot ::
        (x in stores <==> x in old(stores)) && (x in stores ==> stores[x] == old(stores)[x])
      ensures roots == old(roots) && cache == old(cache)
    {
      hide Inv, CanShrink, Shrink, AliveCounts;
      ghost var was := State();
      index, refs, stores, counts, zero := ShrinkAccounts(was, index, refs, stores, counts, slot, snapshot);
      ShrinkKeeps(was, slot, zero);
      ShrinkOutcome(was, slot, zero);
    }

    /** Flushes one rooted slot from the cache to a storage. */
    method FlushSlotCache(slot: Slot, before: set<Pubkey>, clean: bool, mark: bool) returns (written: set<Pubkey>)
      requires CanFlush(State(), slot) && StoresApart(index, cache, stores) && Counted()
      modifies this
      ensures State() == FlushSlot(old(State()), slot, before, clean, mark) && Counted()
      ensures written == NowWritten(old(cache), slot, before, clean)
      ensures forall k :: k in written <==> k in before || (clean && k in old(cache)[slot])
      ensures cache == old(cache) - {slot}
      ensures slot in stores <==> exists k :: k in old(cache)[slot] && !(clean && k in before)
      ensures slot in stores ==>
        && (forall k :: k in stores[slot].accounts <==> k in old(cache)[slot] && !(clean && k in before))
        && (forall k | k in stores[slot].accounts :: stores[slot].accounts[k] == old(cache)[slot][k])
      ensures forall p | p in old(index) && p.1 == slot ::
        (p in index <==> !(clean && p.0 in before)) && (p in index ==> index[p].Stored?)
      ensures forall p | p in old(index) && p.1 != slot :: p in index <==>
        !(clean && mark && old(index)[p].Stored? && p.1 < slot && p.0 in old(cache)[slot] && p.0 !in before)
      ensures forall p | p in index :: p in old(index) && (p.1 != slot ==> index[p] == old(index)[p])
    {
      FlushSlotEffect(State(), slot, before, clean, mark);
      index, refs, roots, cache, stores, counts, cleaned, written :=
        FlushAccounts(State(), index, refs, roots, cache, stores, counts, slot, before, clean, mark);
    }

    /** Flushes every cached root up to a bound, highest first. */
    method FlushRootedAccountsCache(upTo: Slot, clean: Option<Slot>, mark: bool) returns (ghost slots: seq<Slot>)
      requires Inv(State()) && Counted()
      modifies this
      ensures IsBatch(old(State()), slots, upTo)
      ensures State() == FlushSlots(old(State()), slots, {}, clean, mark)
      ensures Inv(State()) && Counted()
      ensures forall x :: x in cache <==> x in old(cache) && !(x in old(ever) && x <= upTo)
      ensures forall x | x in cache :: cache[x] == old(cache)[x]
      ensures forall x, k | x in old(cache) && x in old(ever) && x <= upTo && k in old(cache)[x] ::
        && ((x in stores && k in stores[x].accounts) <==>
              !(clean.Some? && x <= clean.value && HasNewer(old(cache), old(ever), upTo, clean, x, k)))
        && (x in stores && k in stores[x].accounts ==> stores[x].accounts[k] == old(cache)[x][k])
        && ((k, x) in index <==> x in stores && k in stores[x].accounts)
      ensures forall p: Pair | !(p.1 in old(cache) && p.1 in old(ever) && p.1 <= upTo) ::
        && (p in index <==>
              p in old(index) &&
              !(mark && old(index)[p].Stored? && HasNewer(old(cache), old(ever), upTo, clean, p.1, p.0)))
        && (p in index ==> index[p] == old(index)[p])
    {
      hide Flushing, FlushSlot, FlushSlots, Inv, Core, IsBatch, AliveCounts, StoresApart, HasNewer;
      ghost var was := State();
      var todo := set x | x in cache && x in roots && x <= upTo;
      var written: set<Pubkey> := {};
      slots := [];
      FlushingStarts(was, upTo, todo, clean, mark);
      while todo != {}
        invariant Flushing(was, State(), upTo, slots, todo, written, clean, mark) && Counted()
        decreases todo
      {
        Sets.HasHighest(todo);
        var slot :| slot in todo && forall x | x in todo :: x <= slot;
        FlushingNext(was, State(), upTo, slots, todo, written, clean, mark, slot);
        todo := todo - {slot};
        slots := slots + [slot];
        written := FlushSlotCache(slot, written, Cleans(clean, slot), mark);
      }
      FlushingEnds(was, State(), upTo, slots, written, clean, mark);
      FlushEffect(was, slots, upTo, clean, mark);
    }
  }

  lemma KeptIsZero(was: Db, older: Db, keys: set<Pubkey>, bound: Slot, kept: set<Pubkey>)
    requires older == CleanOlder(was, keys, bound) && CleanPurge.IsKept(older, keys, bound, kept)
    ensures kept <= CleanPurge.ZeroKeys(older, keys, bound)
  {
    hide CleanOlder, AliveCounts;
  }

  /** No rooted version of a purged key is left up to the clean root. */
  lemma PurgedAreGone(was: Db, keys: set<Pubkey>, bound: Slot, purge: set<Pubkey>, now: Db)
    requires Inv(was) && Inv(CleanOlder(was, keys, bound)) &&
      now == PurgeZero(CleanOlder(was, keys, bound), purge, bound)
    ensures forall p | p in now.index && p.0 in purge && p.1 in was.roots :: p.1 > bound
  {
    var older := CleanOlder(was, keys, bound);
    assert was.roots <= older.ever;
    forall p | p in now.index && p.0 in purge && p.1 in was.roots ensures p.1 > bound {
      assert p in older.index && p.1 in older.roots;
    }
  }

  lemma ShrinkOutcome(db: Db, slot: Slot, zero: set<Pubkey>)
    requires Inv(db) && CanShrink(db, slot, zero)
    ensures var db' := Shrink(db, slot, zero);
      && ((forall k | (k, slot) in db.index && db.index[(k, slot)].Stored? :: k in zero) ==> db' == db)
      && ((exists k :: k !in zero && (k, slot) in db.index && db.index[(k, slot)].Stored?) ==>
            && slot in db'.stores && db'.stores[slot].obsolete == {}
            && (forall k :: k in db'.stores[slot].accounts <==>
                  k !in zero && (k, slot) in db.index && db.index[(k, slot)].Stored?)
            && (forall k | k in db'.stores[slot].accounts ::
                  k in db.stores[slot].accounts && db'.stores[slot].accounts[k] == db.stores[slot].accounts[k])
            && (forall p :: p in db'.index <==> p in db.index && !(p.1 == slot && p.0 in zero))
            && db'.refs.Keys == db.refs.Keys
            && (forall k | k in db.refs :: db'.refs[k] == db.refs[k] -
                  if k in db.stores[slot].accounts && k !in db.stores[slot].obsolete && k !in db'.stores[slot].accounts
                  then 1 else 0))
      && (forall p | p in db'.index :: p in db.index && db'.index[p] == db.index[p])
      && (forall x | x != slot :: (x in db'.stores <==> x in db.stores) &&
            (x in db.stores ==> db'.stores[x] == db.stores[x]))
      && db'.roots == db.roots && db'.cache == db.cache
  {
    assert StoredMatches(db.index, db.stores);
    hide Inv, CanShrink, Shrink;
    if exists k :: k !in zero && (k, slot) in db.index && db.index[(k, slot)].Stored? {
      ShrinkEffect(db, slot, zero);
    } else {
      ShrinkNothing(db, slot, zero);
    }
  }

  /** Cached entries of an unrooted slot are in no storage. */
  lemma StoreSparesCounts(db: Db, slot: Slot, accounts: map<Pubkey, Account>)
    requires Inv(db) && CanStore(db, slot)
    ensures AliveCounts(StoreAccounts(db, slot, accounts).index, db.stores) == AliveCounts(db.index, db.stores)
  {
    var index' := StoreAccounts(db, slot, accounts).index;
    forall x | x in db.stores ensures AliveAt(index', x) == AliveAt(db.index, x) {
      forall k ensures k in AliveAt(index', x) <==> k in AliveAt(db.index, x) { assert x != slot; }
    }
  }

  lemma SameCounts(index: Index, stores: Stores, gone: set<Pair>, dead: set<Slot>)
    ensures AliveCounts(index, MarkObsolete(stores, gone, dead)) == AliveCounts(index, stores - dead)
  {
    MarkedSlots(stores, gone, dead);
  }

  lemma ShrunkAlive(index: Index, slot: Slot, dropped: set<Pubkey>, x: Slot)
    ensures AliveAt(DropEntries(index, slot, dropped), x) == if x == slot then AliveAt(index, x) - dropped
      else AliveAt(index, x)
  {
    var index' := DropEntries(index, slot, dropped);
    forall k ensures k in AliveAt(index', x) <==> k in AliveAt(index, x) && !(x == slot && k in dropped) {
      assert (k, x) in index' <==> (k, x) in index && !(x == slot && k in dropped);
    }
  }

  lemma ShrunkCounts(index: Index, stores: Stores, slot: Slot, dropped: set<Pubkey>, alive: set<Pubkey>, store: Store)
    requires slot in stores && alive == AliveAt(index, slot) - dropped
    ensures AliveCounts(index, stores)[slot := |alive|] ==
      AliveCounts(DropEntries(index, slot, dropped), stores[slot := store])
  {
    forall x | x in stores ensures AliveCount(DropEntries(index, slot, dropped), x) == if x == slot then |alive|
      else AliveCount(index, x) {
      hide DropEntries;
      ShrunkAlive(index, slot, dropped, x);
    }
    OneCount(index, DropEntries(index, slot, dropped), stores, slot, |alive|, store);
  }

  lemma OneCount(index: Index, index': Index, stores: Stores, slot: Slot, n: nat, store: Store)
    requires forall x | x in stores :: AliveCount(index', x) == if x == slot then n else AliveCount(index, x)
    requires slot in stores
    ensures AliveCounts(index, stores)[slot := n] == AliveCounts(index', stores[slot := store])
  {
    hide AliveCount;
  }

  lemma ShrinkParts(was: Db, slot: Slot, alive: set<Pubkey>, unref: set<Pubkey>, zero: set<Pubkey>)
    requires Inv(was) && slot in was.stores
    requires var records := was.stores[slot].accounts.Keys - was.stores[slot].obsolete;
      && alive + unref + zero == records && alive !! unref !! zero && unref == records - AliveAt(was.index, slot)
      && forall k | k in zero :: k in AliveAt(was.index, slot) && was.stores[slot].accounts[k].IsZeroLamport() &&
           Ref(was.refs, k) == 1
    ensures CanShrink(was, slot, zero) && alive == AliveAt(was.index, slot) - zero
    ensures unref + zero == Dropped(was.stores[slot], alive)
  {
    var records := was.stores[slot].accounts.Keys - was.stores[slot].obsolete;
    forall k | k in AliveAt(was.index, slot) ensures k in records { assert (k, slot) in was.index; }
    forall k | k in zero ensures IsZero(was.stores, (k, slot)) {}
  }

  /** A batch in progress. */
  ghost predicate Flushing(was: Db, now: Db, upTo: Slot, slots: seq<Slot>, todo: set<Slot>, written: set<Pubkey>,
                           clean: Option<Slot>, mark: bool) {
    && BatchSoFar(was, upTo, slots, todo)
    && now == FlushSlots(was, slots, {}, clean, mark) && written == WrittenAfter(was, slots, {}, clean, mark)
    && Core(now) && forall x | x in todo :: CanFlush(now, x) && WrittenOk(now.index, now.ever, written, x, now.cleaned)
  }

  lemma FlushingStarts(was: Db, upTo: Slot, todo: set<Slot>, clean: Option<Slot>, mark: bool)
    requires Inv(was) && todo == set x | x in was.cache && x in was.roots && x <= upTo
    ensures Flushing(was, was, upTo, [], todo, {}, clean, mark)
  {}

  lemma FlushingNext(was: Db, now: Db, upTo: Slot, slots: seq<Slot>, todo: set<Slot>, written: set<Pubkey>,
                     clean: Option<Slot>, mark: bool, slot: Slot)
    requires Flushing(was, now, upTo, slots, todo, written, clean, mark)
    requires slot in todo && forall x | x in todo :: x <= slot
    ensures CanFlush(now, slot) && StoresApart(now.index, now.cache, now.stores)
    ensures Flushing(was, FlushSlot(now, slot, written, Cleans(clean, slot), mark), upTo, slots + [slot], todo - {slot},
                     NowWritten(now.cache, slot, written, Cleans(clean, slot)), clean, mark)
  {
    var cleans := Cleans(clean, slot);
    NextOfBatch(was, upTo, slots, todo, slot);
    FlushLast(was, slots, slot, {}, clean, mark);
    FlushSlotKeeps(now, slot, written, cleans, mark);
    forall x | x in todo - {slot}
      ensures WrittenOk(FlushSlot(now, slot, written, cleans, mark).index, now.ever,
        NowWritten(now.cache, slot, written, cleans), x,
                        FlushSlot(now, slot, written, cleans, mark).cleaned)
    {
      FlushWritten(now, slot, written, cleans, mark, x);
    }
  }

  lemma FlushingEnds(was: Db, now: Db, upTo: Slot, slots: seq<Slot>, written: set<Pubkey>, clean: Option<Slot>,
                     mark: bool)
    requires Inv(was) && Flushing(was, now, upTo, slots, {}, written, clean, mark)
    ensures IsBatch(was, slots, upTo) && now == FlushSlots(was, slots, {}, clean, mark) && Inv(now)
  {
    assert IsBatch(was, slots, upTo);
    FlushKeeps(was, slots, upTo, clean, mark);
  }

  /** The cached roots up to the bound are those flushed so far, in descending order, and those left. */
  ghost predicate BatchSoFar(was: Db, upTo: Slot, slots: seq<Slot>, todo: set<Slot>) {
    && (forall i, j :: 0 <= i < j < |slots| ==> slots[i] > slots[j])
    && (forall x, y | x in slots && y in todo :: y < x)
    && (forall x :: x in slots || x in todo <==> x in was.cache && x in was.ever && x <= upTo)
  }

  lemma NextOfBatch(was: Db, upTo: Slot, slots: seq<Slot>, todo: set<Slot>, slot: Slot)
    requires BatchSoFar(was, upTo, slots, todo) && slot in todo && forall x | x in todo :: x <= slot
    ensures BatchSoFar(was, upTo, slots + [slot], todo - {slot})
  {
    assert forall i :: 0 <= i < |slots| ==> slots[i] in slots;
  }

  /** What a batch has written after these slots. */
  ghost function WrittenAfter(db: Db, slots: seq<Slot>, written: set<Pubkey>, clean: Option<Slot>,
                              mark: bool): set<Pubkey>
    decreases slots
  {
    if slots == [] then written
    else
      var cleans := Cleans(clean, slots[0]);
      WrittenAfter(FlushSlot(db, slots[0], written, cleans, mark), slots[1..],
        NowWritten(db.cache, slots[0], written, cleans), clean, mark)
  }

  /** Flushing one more slot at the end of the batch. */
  lemma {:induction false} FlushLast(db: Db, slots: seq<Slot>, slot: Slot, written: set<Pubkey>, clean: Option<Slot>,
                                     mark: bool)
    ensures var now, wrote := FlushSlots(db, slots, written, clean, mark),
      WrittenAfter(db, slots, written, clean, mark);
      && FlushSlots(db, slots + [slot], written, clean, mark) == FlushSlot(now, slot, wrote, Cleans(clean, slot), mark)
      && WrittenAfter(db, slots + [slot], written, clean, mark) ==
           NowWritten(now.cache, slot, wrote, Cleans(clean, slot))
    decreases slots
  {
    hide FlushSlot, NowWritten;
    if slots == [] {
      var next, now := FlushSlot(db, slot, written, Cleans(clean, slot), mark),
        NowWritten(db.cache, slot, written, Cleans(clean, slot));
      assert ([slot])[1..] == [];
      assert slots + [slot] == [slot];
      assert FlushSlots(next, [], now, clean, mark) == next && WrittenAfter(next, [], now, clean, mark) == now;
    } else {
      assert (slots + [slot])[1..] == slots[1..] + [slot];
      var cleans := Cleans(clean, slots[0]);
      FlushLast(FlushSlot(db, slots[0], written, cleans, mark), slots[1..], slot,
        NowWritten(db.cache, slots[0], written, cleans), clean, mark);
    }
  }

  lemma FlushedParts(was: Db, now: Db, slot: Slot, before: set<Pubkey>, clean: bool, mark: bool,
                     write: set<Pubkey>, skip: set<Pubkey>, reclaims: set<Pair>, kept: Stores, dead: set<Slot>)
    requires slot in was.cache
    requires skip == Skipped(was.cache, slot, before, clean) && write == was.cache[slot].Keys - skip
    requires reclaims == Outdated(was.index, slot, write, clean && mark)
    requires now.index == FlushIndex(was.index, slot, skip, write, reclaims) &&
      now.refs == FlushRefs(was.refs, write, reclaims)
    requires dead == Emptied(now.index, was.stores, reclaims) && kept == MarkObsolete(was.stores, reclaims, dead)
    requires now.roots == was.roots - dead - (if write == {} then {slot} else {})
    requires now.stores == if write == {} then kept else kept[slot := Store(Restrict(was.cache[slot], write), {})]
    requires now.cache == was.cache - {slot} && now.ever == was.ever && now.history == was.history
    requires now.cleaned == if clean then Max(was.cleaned, slot) else was.cleaned
    ensures now == FlushSlot(was, slot, before, clean, mark)
  {}
}
