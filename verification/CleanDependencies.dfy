/**
 Which zero-lamport candidates clean may purge: the store counts as if every candidate were purged, the
 worklist that takes back every store that cannot go, and the filter that keeps the rest.
 */
module CleanDependencies {
  import opened Types
  import Sets

  /** The stored versions of a candidate and the number of storages that hold it. */
  datatype CleaningInfo = CleaningInfo(slots: set<Slot>, refCount: nat)

  /** Accounts left in a store once all its candidates are purged, and those candidates. */
  datatype StoreCount = StoreCount(count: nat, keys: set<Pubkey>)

  type Candidates = map<Pubkey, CleaningInfo>
  type StoreCounts = map<Slot, StoreCount>

  // ---------------------------------------------------------------- specification

  /** The candidates stored in `slot`. */
  function KeysIn(candidates: Candidates, slot: Slot): (keys: set<Pubkey>)
    ensures forall k :: k in keys <==> k in candidates && slot in candidates[k].slots
  {
    set k | k in candidates && slot in candidates[k].slots
  }

  /** A store has at least as many accounts as candidates. */
  ghost predicate CountsCover(candidates: Candidates, counts: map<Slot, nat>) {
    forall k, slot | k in candidates && slot in candidates[k].slots ::
      slot in counts && counts[slot] >= |KeysIn(candidates, slot)|
  }

  /** A set of candidates that can be purged together: each is purged from every storage that holds it, and
      each of its stores holds nothing but candidates of the set. */
  ghost predicate Closed(candidates: Candidates, counts: map<Slot, nat>, purge: set<Pubkey>) {
    forall k | k in purge ::
      && k in candidates && |candidates[k].slots| == candidates[k].refCount
      && forall slot | slot in candidates[k].slots ::
           slot in counts && counts[slot] == |KeysIn(candidates, slot)| && KeysIn(candidates, slot) <= purge
  }

  ghost predicate GreatestClosed(candidates: Candidates, counts: map<Slot, nat>, purge: set<Pubkey>) {
    Closed(candidates, counts, purge) && forall other | Closed(candidates, counts, other) :: other <= purge
  }

  /** There is one greatest closed set, whatever order finds it. */
  lemma GreatestIsUnique(candidates: Candidates, counts: map<Slot, nat>, a: set<Pubkey>, b: set<Pubkey>)
    requires GreatestClosed(candidates, counts, a) && GreatestClosed(candidates, counts, b)
    ensures a == b
  {}

  /** Purging a closed set empties every store it touches: the purged accounts are all the store counts. */
  lemma ClosedStoresDie(candidates: Candidates, counts: map<Slot, nat>, purge: set<Pubkey>, k: Pubkey, slot: Slot)
    requires Closed(candidates, counts, purge) && k in purge && slot in candidates[k].slots
    ensures slot in counts && counts[slot] == |set j | j in purge && slot in candidates[j].slots|
  {
    assert (set j | j in purge && slot in candidates[j].slots) == KeysIn(candidates, slot);
  }

  // ---------------------------------------------------------------- store counts

  /** Does `storeCounts` describe the stores of these candidates? */
  ghost predicate Describes(candidates: Candidates, counts: map<Slot, nat>, storeCounts: StoreCounts) {
    && (forall k, slot | k in candidates && slot in candidates[k].slots :: slot in storeCounts)
    && (forall slot | slot in storeCounts ::
          && storeCounts[slot].keys == KeysIn(candidates, slot) && KeysIn(candidates, slot) != {}
          && slot in counts && storeCounts[slot].count == counts[slot] - |KeysIn(candidates, slot)|)
  }

  /** One more candidate in the store at `slot`. */
  function Discount(storeCounts: StoreCounts, counts: map<Slot, nat>, slot: Slot, key: Pubkey): StoreCounts
    requires slot in storeCounts ==> storeCounts[slot].count > 0
    requires slot in counts && counts[slot] > 0
  {
    if slot in storeCounts then
      storeCounts[slot := StoreCount(storeCounts[slot].count - 1, storeCounts[slot].keys + {key})]
    else
      storeCounts[slot := StoreCount(counts[slot] - 1, {key})]
  }

  lemma MoreKeys(candidates: Candidates, key: Pubkey, slot: Slot, x: Slot)
    requires key in candidates
    ensures var more := candidates[key := candidates[key].(slots := candidates[key].slots + {slot})];
      KeysIn(more, x) == KeysIn(candidates, x) + if x == slot then {key} else {}
  {
    var more := candidates[key := candidates[key].(slots := candidates[key].slots + {slot})];
    forall k ensures k in KeysIn(more, x) <==> k in KeysIn(candidates, x) || (x == slot && k == key) {}
  }

  lemma DiscountDescribes(candidates: Candidates, counts: map<Slot, nat>, storeCounts: StoreCounts, key: Pubkey,
                          slot: Slot)
    requires Describes(candidates, counts, storeCounts)
    requires key in candidates && slot !in candidates[key].slots
    requires slot in counts && |KeysIn(candidates, slot)| < counts[slot]
    ensures slot in storeCounts ==> storeCounts[slot].count > 0
    ensures Describes(candidates[key := candidates[key].(slots := candidates[key].slots + {slot})], counts,
                      Discount(storeCounts, counts, slot, key))
  {
    var more := candidates[key := candidates[key].(slots := candidates[key].slots + {slot})];
    MoreKeys(candidates, key, slot, slot);
    assert key !in KeysIn(candidates, slot);
    assert slot !in storeCounts ==> KeysIn(candidates, slot) == {};
    var after := Discount(storeCounts, counts, slot, key);
    forall x | x in after && x != slot ensures KeysIn(more, x) == KeysIn(candidates, x) {
      MoreKeys(candidates, key, slot, x);
    }
  }

  lemma FewerKeys(part: Candidates, candidates: Candidates, slot: Slot, key: Pubkey)
    requires forall k | k in part :: k in candidates && part[k].slots <= candidates[k].slots
    requires key in KeysIn(candidates, slot) && key !in KeysIn(part, slot)
    ensures |KeysIn(part, slot)| < |KeysIn(candidates, slot)|
  {
    Sets.SubsetSize(KeysIn(part, slot), KeysIn(candidates, slot) - {key});
  }

  /** The candidates of `others` and what has been seen of one more. */
  ghost function With(others: Candidates, key: Pubkey, info: CleaningInfo, seen: set<Slot>): Candidates {
    others[key := info.(slots := seen)]
  }

  lemma NothingSeen(others: Candidates, key: Pubkey, info: CleaningInfo, counts: map<Slot, nat>,
                    storeCounts: StoreCounts)
    requires key !in others && Describes(others, counts, storeCounts)
    ensures Describes(With(others, key, info, {}), counts, storeCounts)
  {
    var part := With(others, key, info, {});
    forall slot: Slot ensures KeysIn(part, slot) == KeysIn(others, slot) {}
  }

  lemma SeeOneMore(candidates: Candidates, others: Candidates, key: Pubkey, info: CleaningInfo, seen: set<Slot>,
                   slot: Slot,
                   counts: map<Slot, nat>, storeCounts: StoreCounts)
    requires CountsCover(candidates, counts) && key in candidates && candidates[key] == info && key !in others
    requires forall k | k in others :: k in candidates && others[k] == candidates[k]
    requires seen <= info.slots && slot in info.slots && slot !in seen
    requires Describes(With(others, key, info, seen), counts, storeCounts)
    ensures slot in storeCounts ==> storeCounts[slot].count > 0
    ensures slot in counts && counts[slot] > 0
    ensures Describes(With(others, key, info, seen + {slot}), counts, Discount(storeCounts, counts, slot, key))
  {
    var part := With(others, key, info, seen);
    FewerKeys(part, candidates, slot, key);
    DiscountDescribes(part, counts, storeCounts, key, slot);
    assert part[key := part[key].(slots := part[key].slots + {slot})] == With(others, key, info, seen + {slot});
  }

  method CollectCandidate(ghost candidates: Candidates, ghost others: Candidates, key: Pubkey, info: CleaningInfo,
                          counts: map<Slot, nat>, before: StoreCounts) returns (storeCounts: StoreCounts)
    requires CountsCover(candidates, counts) && key in candidates && candidates[key] == info && key !in others
    requires forall k | k in others :: k in candidates && others[k] == candidates[k]
    requires Describes(others, counts, before)
    ensures Describes(others[key := info], counts, storeCounts)
  {
    hide Describes, CountsCover;
    storeCounts := before;
    var left := info.slots;
    NothingSeen(others, key, info, counts, storeCounts);
    ghost var seen := {};
    while left != {}
      invariant left <= info.slots && seen == info.slots - left
      invariant Describes(With(others, key, info, seen), counts, storeCounts)
      decreases left
    {
      var slot :| slot in left;
      left := left - {slot};
      SeeOneMore(candidates, others, key, info, seen, slot, counts, storeCounts);
      storeCounts := Discount(storeCounts, counts, slot, key);
      seen := seen + {slot};
    }
    assert seen == info.slots && info.(slots := seen) == info;
  }

  /** The store counts as if every candidate were purged. No count underflows. */
  method CollectStoreCounts(candidates: Candidates, counts: map<Slot, nat>) returns (storeCounts: StoreCounts)
    requires CountsCover(candidates, counts)
    ensures Describes(candidates, counts, storeCounts)
  {
    storeCounts := map[];
    var todo := candidates.Keys;
    ghost var done: Candidates := map[];
    while todo != {}
      invariant todo <= candidates.Keys
      invariant forall k :: k in done <==> k in candidates && k !in todo
      invariant forall k | k in done :: done[k] == candidates[k]
      invariant Describes(done, counts, storeCounts)
      decreases todo
    {
      var key :| key in todo;
      todo := todo - {key};
      storeCounts := CollectCandidate(candidates, done, key, candidates[key], counts, storeCounts);
      done := done[key := candidates[key]];
    }
    assert done == candidates;
  }

  // ---------------------------------------------------------------- the worklist

  /** Would purging this candidate empty all the stores it is in? */
  predicate Purgeable(storeCounts: StoreCounts, info: CleaningInfo) {
    forall slot | slot in info.slots :: slot in storeCounts && storeCounts[slot].count == 0
  }

  /** No store of the set is among `stores`. */
  ghost predicate Spares(candidates: Candidates, purge: set<Pubkey>, stores: set<Slot>) {
    forall k | k in purge && k in candidates :: candidates[k].slots !! stores
  }

  /** Every closed set does without these stores. */
  ghost predicate SparesAll(candidates: Candidates, counts: map<Slot, nat>, stores: set<Slot>) {
    forall purge | Closed(candidates, counts, purge) :: Spares(candidates, purge, stores)
  }

  /** The stores of every candidate of `stores` are among `reach`. */
  ghost predicate Reaches(candidates: Candidates, stores: set<Slot>, reach: set<Slot>) {
    forall slot, k | slot in stores && k in KeysIn(candidates, slot) :: candidates[k].slots <= reach
  }

  /** A store of a candidate outside the set is not a store of the set. */
  lemma SparesCandidate(candidates: Candidates, counts: map<Slot, nat>, purge: set<Pubkey>, stores: set<Slot>,
                        key: Pubkey)
    requires Closed(candidates, counts, purge) && Spares(candidates, purge, stores)
    requires key in candidates && key !in purge
    ensures Spares(candidates, purge, stores + candidates[key].slots)
  {
    forall k | k in purge && k in candidates ensures candidates[k].slots !! candidates[key].slots {
      forall slot | slot in candidates[k].slots ensures slot !in candidates[key].slots {
        assert KeysIn(candidates, slot) <= purge;
        assert key !in KeysIn(candidates, slot);
      }
    }
  }

  /** A candidate that fails the test is in no closed set. */
  lemma FailedIsSpared(candidates: Candidates, counts: map<Slot, nat>, initial: StoreCounts, counted: set<Slot>,
                       key: Pubkey)
    requires Describes(candidates, counts, initial) && SparesAll(candidates, counts, counted) && key in candidates
    requires |candidates[key].slots| != candidates[key].refCount || !Purgeable(initial - counted, candidates[key])
    ensures SparesAll(candidates, counts, counted + candidates[key].slots)
  {
    forall purge | Closed(candidates, counts, purge)
      ensures Spares(candidates, purge, counted + candidates[key].slots)
    {
      assert Spares(candidates, purge, counted);
      SparesCandidate(candidates, counts, purge, counted, key);
    }
  }

  /** A candidate of a store that stays keeps all its stores. */
  lemma NeighbourIsSpared(candidates: Candidates, counts: map<Slot, nat>, stores: set<Slot>, slot: Slot, key: Pubkey)
    requires SparesAll(candidates, counts, stores) && slot in stores && key in KeysIn(candidates, slot)
    ensures SparesAll(candidates, counts, stores + candidates[key].slots)
  {
    forall purge | Closed(candidates, counts, purge)
      ensures Spares(candidates, purge, stores + candidates[key].slots)
    {
      assert Spares(candidates, purge, stores);
      SparesCandidate(candidates, counts, purge, stores, key);
    }
  }

  /** The stores of the candidates of one store join the pending ones. */
  method AddNeighbours(candidates: Candidates, ghost counts: map<Slot, nat>, slot: Slot, keys: set<Pubkey>,
                       counted: set<Slot>, before: set<Slot>, ghost stores: set<Slot>)
    returns (pending: set<Slot>)
    requires keys == KeysIn(candidates, slot) && slot in counted
    requires SparesAll(candidates, counts, counted + before)
    requires forall k | k in candidates :: candidates[k].slots <= stores
    requires before <= stores
    ensures before <= pending <= stores
    ensures SparesAll(candidates, counts, counted + pending)
    ensures forall k | k in keys :: candidates[k].slots <= counted + pending
  {
    hide SparesAll;
    pending := before;
    var affected := keys;
    while affected != {}
      invariant affected <= keys && before <= pending <= stores
      invariant SparesAll(candidates, counts, counted + pending)
      invariant forall k | k in keys && k !in affected :: candidates[k].slots <= counted + pending
      decreases affected
    {
      var key :| key in affected;
      affected := affected - {key};
      NeighbourIsSpared(candidates, counts, counted + pending, slot, key);
      assert counted + pending + candidates[key].slots == counted + (pending + (candidates[key].slots - counted));
      pending := pending + (candidates[key].slots - counted);
    }
  }

  lemma ReachesFurther(candidates: Candidates, counted: set<Slot>, reach: set<Slot>, more: set<Slot>)
    requires Reaches(candidates, counted, reach) && reach <= more
    ensures Reaches(candidates, counted, more)
  {}

  lemma ReachesMore(candidates: Candidates, counted: set<Slot>, slot: Slot, reach: set<Slot>, more: set<Slot>)
    requires Reaches(candidates, counted, reach) && reach <= more
    requires forall k | k in KeysIn(candidates, slot) :: candidates[k].slots <= more
    ensures Reaches(candidates, counted + {slot}, more)
  {}

  /** Taking back the stores of `start` and every store reachable from them through shared candidates. */
  method TakeBack(candidates: Candidates, ghost counts: map<Slot, nat>, ghost initial: StoreCounts,
                  before: StoreCounts, countedBefore: set<Slot>, start: set<Slot>)
    returns (storeCounts: StoreCounts, counted: set<Slot>)
    requires forall slot | slot in initial :: initial[slot].keys == KeysIn(candidates, slot)
    requires forall k | k in candidates :: candidates[k].slots <= initial.Keys
    requires before == initial - countedBefore
    requires SparesAll(candidates, counts, countedBefore + start)
    requires Reaches(candidates, countedBefore, countedBefore)
    requires start <= initial.Keys && countedBefore <= initial.Keys
    ensures storeCounts == initial - counted && counted <= initial.Keys
    ensures countedBefore + start <= counted
    ensures SparesAll(candidates, counts, counted)
    ensures Reaches(candidates, counted, counted)
  {
    hide SparesAll, Reaches;
    storeCounts, counted := before, countedBefore;
    var pending := start - counted;
    assert counted + pending == countedBefore + start;
    ReachesFurther(candidates, counted, counted, counted + pending);
    while pending != {}
      invariant storeCounts == initial - counted
      invariant counted <= initial.Keys && pending <= initial.Keys
      invariant countedBefore + start <= counted + pending
      invariant SparesAll(candidates, counts, counted + pending)
      invariant Reaches(candidates, counted, counted + pending)
      decreases initial.Keys - counted, pending
    {
      var slot :| slot in pending;
      ghost var reach := counted + pending;
      pending := pending - {slot};
      if slot in counted {
        assert counted + pending == reach;
      } else {
        var keys := storeCounts[slot].keys;
        ghost var already := counted;
        counted := counted + {slot};
        storeCounts := storeCounts - {slot};
        assert counted + pending == reach;
        pending := AddNeighbours(candidates, counts, slot, keys, counted, pending, initial.Keys);
        ReachesMore(candidates, already, slot, reach, counted + pending);
      }
    }
    assert counted + {} == counted;
  }

  /** The candidate passes the test on the initial counts, or its stores have been taken back. */
  ghost predicate Settled(initial: StoreCounts, counted: set<Slot>, info: CleaningInfo) {
    (|info.slots| == info.refCount && Purgeable(initial, info)) || info.slots <= counted
  }

  lemma PurgeableBefore(initial: StoreCounts, counted: set<Slot>, info: CleaningInfo)
    requires Purgeable(initial - counted, info)
    ensures Purgeable(initial, info)
  {}

  /** The stores whose counts were taken back. */
  ghost function Counted(initial: StoreCounts, storeCounts: StoreCounts): set<Slot> {
    initial.Keys - storeCounts.Keys
  }

  /** Takes back the count of every store that cannot be removed, whatever the order of the candidates. */
  method CalcDeleteDependencies(candidates: Candidates, ghost counts: map<Slot, nat>, initial: StoreCounts)
    returns (storeCounts: StoreCounts)
    requires Describes(candidates, counts, initial)
    ensures storeCounts == initial - Counted(initial, storeCounts)
    ensures SparesAll(candidates, counts, Counted(initial, storeCounts))
    ensures Reaches(candidates, Counted(initial, storeCounts), Counted(initial, storeCounts))
    ensures forall k | k in candidates :: Settled(initial, Counted(initial, storeCounts), candidates[k])
  {
    var alreadyCounted := {};
    storeCounts := initial;
    var todo := candidates.Keys;
    while todo != {}
      invariant todo <= candidates.Keys
      invariant storeCounts == initial - alreadyCounted && alreadyCounted <= initial.Keys
      invariant SparesAll(candidates, counts, alreadyCounted)
      invariant Reaches(candidates, alreadyCounted, alreadyCounted)
      invariant forall k | k in candidates && k !in todo :: Settled(initial, alreadyCounted, candidates[k])
      decreases todo
    {
      var key :| key in todo;
      var info := candidates[key];
      todo := todo - {key};
      if |info.slots| == info.refCount && Purgeable(storeCounts, info) {
        PurgeableBefore(initial, alreadyCounted, info);
      } else {
        FailedIsSpared(candidates, counts, initial, alreadyCounted, key);
        storeCounts, alreadyCounted := TakeBack(candidates, counts, initial, storeCounts, alreadyCounted, info.slots);
      }
    }
    assert Counted(initial, storeCounts) == alreadyCounted;
  }

  /** The candidates whose stores are all being removed. */
  function Kept(candidates: Candidates, storeCounts: StoreCounts): set<Pubkey> {
    set k | k in candidates && Purgeable(storeCounts, candidates[k])
  }

  lemma KeptStore(candidates: Candidates, counts: map<Slot, nat>, initial: StoreCounts, counted: set<Slot>, k: Pubkey,
                  slot: Slot)
    requires Describes(candidates, counts, initial)
    requires forall j | j in candidates :: Settled(initial, counted, candidates[j])
    requires Reaches(candidates, counted, counted)
    requires k in Kept(candidates, initial - counted) && slot in candidates[k].slots
    ensures slot in counts && counts[slot] == |KeysIn(candidates, slot)| && slot !in counted
    ensures KeysIn(candidates, slot) <= Kept(candidates, initial - counted)
  {
    assert slot in initial - counted;
    forall j | j in KeysIn(candidates, slot) ensures j in Kept(candidates, initial - counted) {
      NeighbourIsKept(candidates, initial, counted, k, slot, j);
    }
  }

  lemma KeptIsClosed(candidates: Candidates, counts: map<Slot, nat>, initial: StoreCounts, counted: set<Slot>)
    requires Describes(candidates, counts, initial)
    requires forall k | k in candidates :: candidates[k].slots != {}
    requires forall k | k in candidates :: Settled(initial, counted, candidates[k])
    requires Reaches(candidates, counted, counted)
    ensures Closed(candidates, counts, Kept(candidates, initial - counted))
  {
    hide Describes, Reaches;
    var kept := Kept(candidates, initial - counted);
    forall k, slot | k in kept && slot in candidates[k].slots
      ensures slot in counts && counts[slot] == |KeysIn(candidates, slot)| && KeysIn(candidates, slot) <= kept &&
        slot !in counted
    {
      KeptStore(candidates, counts, initial, counted, k, slot);
    }
  }

  lemma NeighbourIsKept(candidates: Candidates, initial: StoreCounts, counted: set<Slot>, k: Pubkey, slot: Slot,
                        j: Pubkey)
    requires k in Kept(candidates, initial - counted) && slot in candidates[k].slots && j in KeysIn(candidates, slot)
    requires Settled(initial, counted, candidates[j])
    requires Reaches(candidates, counted, counted)
    ensures j in Kept(candidates, initial - counted)
  {
    assert slot in initial - counted;
    forall x | x in candidates[j].slots ensures x in initial - counted && initial[x].count == 0 {
      assert x in counted ==> j in KeysIn(candidates, x);
    }
  }

  lemma KeptIsGreatest(candidates: Candidates, counts: map<Slot, nat>, initial: StoreCounts, counted: set<Slot>,
                       purge: set<Pubkey>)
    requires Describes(candidates, counts, initial)
    requires SparesAll(candidates, counts, counted) && Closed(candidates, counts, purge)
    ensures purge <= Kept(candidates, initial - counted)
  {
    assert Spares(candidates, purge, counted);
    forall k, slot | k in purge && slot in candidates[k].slots
      ensures slot in initial - counted && initial[slot].count == 0
    {
      assert slot in initial;
    }
  }

  // ---------------------------------------------------------------- the incremental snapshot filter

  /** Is the candidate's newest version above the latest full snapshot? */
  predicate AfterSnapshot(info: CleaningInfo, snapshot: Slot) {
    exists slot | slot in info.slots :: slot > snapshot
  }

  /** The filter gives up, one by one, the candidates that went to zero after the snapshot. */
  function SnapshotFilter(candidates: Candidates, purge: set<Pubkey>, snapshot: Slot): set<Pubkey> {
    set k | k in purge && k in candidates && !AfterSnapshot(candidates[k], snapshot)
  }

  /** What the filter leaves can still be purged together exactly when no store mixes candidates of both kinds. */
  lemma FilteredIsClosed(candidates: Candidates, counts: map<Slot, nat>, purge: set<Pubkey>, snapshot: Slot)
    requires Closed(candidates, counts, purge)
    ensures Closed(candidates, counts, SnapshotFilter(candidates, purge, snapshot)) <==>
      forall k, j, slot | k in purge && j in purge && slot in candidates[k].slots && slot in candidates[j].slots ::
        AfterSnapshot(candidates[k], snapshot) == AfterSnapshot(candidates[j], snapshot)
  {
    var left := SnapshotFilter(candidates, purge, snapshot);
    if Closed(candidates, counts, left) {
      forall k, j, slot | k in purge && j in purge && slot in candidates[k].slots && slot in candidates[j].slots
        ensures AfterSnapshot(candidates[k], snapshot) == AfterSnapshot(candidates[j], snapshot)
      {
        assert k in left ==> KeysIn(candidates, slot) <= left;
        assert j in left ==> KeysIn(candidates, slot) <= left;
      }
    } else {
      var k :| k in left && !(forall slot | slot in candidates[k].slots :: KeysIn(candidates, slot) <= left);
      var slot :| slot in candidates[k].slots && !(KeysIn(candidates, slot) <= left);
      var j :| j in KeysIn(candidates, slot) && j !in left;
      assert j in purge;
    }
  }

  /** Candidates with one version each never share a store with one of the other kind. */
  lemma SingleVersionsStayClosed(candidates: Candidates, counts: map<Slot, nat>, purge: set<Pubkey>, snapshot: Slot)
    requires Closed(candidates, counts, purge) && OneVersionEach(candidates)
    ensures Closed(candidates, counts, SnapshotFilter(candidates, purge, snapshot))
  {
    forall k, j, slot | k in purge && j in purge && slot in candidates[k].slots && slot in candidates[j].slots
      ensures AfterSnapshot(candidates[k], snapshot) == AfterSnapshot(candidates[j], snapshot)
    {
      assert candidates[k].slots == {slot} && candidates[j].slots == {slot};
    }
    FilteredIsClosed(candidates, counts, purge, snapshot);
  }

  ghost predicate OneVersionEach(candidates: Candidates) {
    forall k, x, y | k in candidates && x in candidates[k].slots && y in candidates[k].slots :: x == y
  }

  /** Clean filters when its root is above the latest full snapshot. */
  predicate Filters(bound: Slot, snapshot: Option<Slot>) {
    snapshot.Some? && bound > snapshot.value
  }

  /** The candidates that are left to purge. */
  ghost function Filtered(candidates: Candidates, kept: set<Pubkey>, bound: Slot, snapshot: Option<Slot>): set<Pubkey> {
    if Filters(bound, snapshot) then SnapshotFilter(candidates, kept, snapshot.value) else kept
  }

  /** The greatest set that can be purged together, as far as the filter lets it go. */
  ghost predicate IsPurge(candidates: Candidates, counts: map<Slot, nat>, bound: Slot, snapshot: Option<Slot>,
                          purge: set<Pubkey>) {
    exists kept :: GreatestClosed(candidates, counts, kept) && purge == Filtered(candidates, kept, bound, snapshot)
  }

  lemma PurgeIsUnique(candidates: Candidates, counts: map<Slot, nat>, bound: Slot, snapshot: Option<Slot>,
                      a: set<Pubkey>, b: set<Pubkey>)
    requires IsPurge(candidates, counts, bound, snapshot, a) && IsPurge(candidates, counts, bound, snapshot, b)
    ensures a == b
  {
    var keptA :| GreatestClosed(candidates, counts, keptA) && a == Filtered(candidates, keptA, bound, snapshot);
    var keptB :| GreatestClosed(candidates, counts, keptB) && b == Filtered(candidates, keptB, bound, snapshot);
    GreatestIsUnique(candidates, counts, keptA, keptB);
  }

  lemma PurgeIsClosed(candidates: Candidates, counts: map<Slot, nat>, bound: Slot, snapshot: Option<Slot>,
                      purge: set<Pubkey>)
    requires IsPurge(candidates, counts, bound, snapshot, purge) && OneVersionEach(candidates)
    ensures Closed(candidates, counts, purge)
  {
    var kept :| GreatestClosed(candidates, counts, kept) && purge == Filtered(candidates, kept, bound, snapshot);
    if Filters(bound, snapshot) { SingleVersionsStayClosed(candidates, counts, kept, snapshot.value); }
  }

  /** The versions of the kept candidates that have to wait for the next full snapshot. */
  ghost predicate AreLater(candidates: Candidates, kept: set<Pubkey>, purge: set<Pubkey>, later: set<(Slot, Pubkey)>) {
    && (forall p | p in later :: p.1 in kept && p.1 !in purge && p.1 in candidates &&
         IsNewestSlot(candidates[p.1].slots, p.0))
    && (forall k | k in kept && k !in purge :: exists x :: (x, k) in later)
  }

  lemma LaterWait(candidates: Candidates, counts: map<Slot, nat>, bound: Slot, snapshot: Option<Slot>,
                  purge: set<Pubkey>, later: set<(Slot, Pubkey)>)
    requires IsPurge(candidates, counts, bound, snapshot, purge)
    requires forall kept | GreatestClosed(candidates, counts, kept) ::
      Waits(candidates, kept, bound, snapshot, purge, later)
    ensures forall p | p in later :: p.1 in candidates && p.1 !in purge
  {
    var kept :| GreatestClosed(candidates, counts, kept) && purge == Filtered(candidates, kept, bound, snapshot);
  }

  lemma LaterGrows(candidates: Candidates, kept: set<Pubkey>, purge: set<Pubkey>, later: set<(Slot, Pubkey)>, x: Slot,
                   k: Pubkey)
    requires AreLater(candidates, kept, purge, later) && k in candidates && k !in purge &&
      IsNewestSlot(candidates[k].slots, x)
    ensures AreLater(candidates, kept + {k}, purge, later + {(x, k)})
  {
    assert (x, k) in later + {(x, k)};
    forall j | j in kept && j !in purge ensures exists y :: (y, j) in later + {(x, k)} {
      var y :| (y, j) in later;
      assert (y, j) in later + {(x, k)};
    }
  }

  lemma NewestDecides(info: CleaningInfo, newest: Slot, snapshot: Slot)
    requires IsNewestSlot(info.slots, newest)
    ensures newest > snapshot <==> AfterSnapshot(info, snapshot)
  {
    if newest > snapshot { assert newest in info.slots; }
  }

  predicate IsNewestSlot(slots: set<Slot>, x: Slot) {
    x in slots && forall y | y in slots :: y <= x
  }

  /** A key waits exactly when clean goes beyond the latest full snapshot and the key's newest version is above it; it
      is then kept for later with that version. */
  ghost predicate Waits(candidates: Candidates, kept: set<Pubkey>, bound: Slot, snapshot: Option<Slot>,
                        purge: set<Pubkey>, later: set<(Slot, Pubkey)>) {
    && (snapshot.None? || bound <= snapshot.value ==> purge == kept && later == {})
    && (snapshot.Some? && snapshot.value < bound ==>
          && purge <= kept
          && (forall k, x | k in purge && k in candidates && x in candidates[k].slots :: x <= snapshot.value)
          && (forall k, x | k in kept && k in candidates && x in candidates[k].slots && x > snapshot.value &&
               (forall y | y in candidates[k].slots :: y <= x) :: (x, k) in later)
          && (forall x, k | (x, k) in later ::
               k in kept && k !in purge && k in candidates && x in candidates[k].slots && x > snapshot.value &&
               forall y | y in candidates[k].slots :: y <= x)
          && (forall k | k in kept && k !in purge :: exists x :: (x, k) in later))
  }

  lemma FilteredWaits(candidates: Candidates, kept: set<Pubkey>, bound: Slot, snapshot: Option<Slot>,
                      purge: set<Pubkey>, later: set<(Slot, Pubkey)>)
    requires kept <= candidates.Keys && purge == Filtered(candidates, kept, bound, snapshot)
    requires AreLater(candidates, kept, purge, later)
    ensures Waits(candidates, kept, bound, snapshot, purge, later)
  {
    forall x: Slot, k | (x, k) in later
      ensures k in kept && k !in purge && IsNewestSlot(candidates[k].slots, x) && Filters(bound, snapshot) &&
        x > snapshot.value
    {
      assert (x, k).1 == k && (x, k).0 == x;
      NewestDecides(candidates[k], x, snapshot.value);
    }
    if snapshot.Some? && snapshot.value < bound {
      forall k, x | k in kept && k in candidates && x in candidates[k].slots && x > snapshot.value &&
        (forall y | y in candidates[k].slots :: y <= x) ensures (x, k) in later
      {
        assert k !in purge;
        var z :| (z, k) in later;
        assert IsNewestSlot(candidates[k].slots, z);
      }
    }
  }

  /** Decides candidate by candidate: its stores must all go, and its newest version must not be after the snapshot. */
  method FilterZeroLamportClean(candidates: Candidates, storeCounts: StoreCounts, bound: Slot, snapshot: Option<Slot>)
    returns (purge: set<Pubkey>, later: set<(Slot, Pubkey)>)
    requires forall k | k in candidates :: candidates[k].slots != {}
    ensures purge == Filtered(candidates, Kept(candidates, storeCounts), bound, snapshot)
    ensures AreLater(candidates, Kept(candidates, storeCounts), purge, later)
    ensures Waits(candidates, Kept(candidates, storeCounts), bound, snapshot, purge, later)
  {
    purge, later := {}, {};
    var todo := candidates.Keys;
    ghost var kept: set<Pubkey> := {};
    while todo != {}
      invariant todo <= candidates.Keys
      invariant forall k :: k in kept <==> k in candidates && k !in todo && Purgeable(storeCounts, candidates[k])
      invariant purge == Filtered(candidates, kept, bound, snapshot) && AreLater(candidates, kept, purge, later)
      decreases todo
    {
      var k :| k in todo;
      todo := todo - {k};
      if Purgeable(storeCounts, candidates[k]) {
        kept := kept + {k};
        Sets.HasHighest(candidates[k].slots);
        var newest :| newest in candidates[k].slots && IsNewestSlot(candidates[k].slots, newest);
        if snapshot.Some? { NewestDecides(candidates[k], newest, snapshot.value); }
        if Filters(bound, snapshot) && newest > snapshot.value {
          LaterGrows(candidates, kept - {k}, purge, later, newest, k);
          later := later + {(newest, k)};
        } else {
          purge := purge + {k};
        }
      }
    }
    assert kept == Kept(candidates, storeCounts);
    FilteredWaits(candidates, kept, bound, snapshot, purge, later);
  }

  /** What clean purges: store counts, worklist and filter. */
  method CandidatesToPurge(candidates: Candidates, counts: map<Slot, nat>, bound: Slot, snapshot: Option<Slot>)
    returns (purge: set<Pubkey>, later: set<(Slot, Pubkey)>)
    requires forall k | k in candidates :: candidates[k].slots != {}
    requires CountsCover(candidates, counts)
    ensures IsPurge(candidates, counts, bound, snapshot, purge)
    ensures forall kept | GreatestClosed(candidates, counts, kept) ::
      Waits(candidates, kept, bound, snapshot, purge, later)
  {
    var initial := CollectStoreCounts(candidates, counts);
    var storeCounts := CalcDeleteDependencies(candidates, counts, initial);
    purge, later := FilterZeroLamportClean(candidates, storeCounts, bound, snapshot);
    KeptIsGreatestClosed(candidates, counts, initial, storeCounts);
    forall kept | GreatestClosed(candidates, counts, kept)
      ensures Waits(candidates, kept, bound, snapshot, purge, later)
    {
      GreatestIsUnique(candidates, counts, kept, Kept(candidates, storeCounts));
    }
  }

  /** Whatever the order of the worklist, what it leaves is the greatest set that can be purged together. */
  lemma KeptIsGreatestClosed(candidates: Candidates, counts: map<Slot, nat>, initial: StoreCounts,
                             storeCounts: StoreCounts)
    requires Describes(candidates, counts, initial)
    requires forall k | k in candidates :: candidates[k].slots != {}
    requires storeCounts == initial - Counted(initial, storeCounts)
    requires SparesAll(candidates, counts, Counted(initial, storeCounts))
    requires Reaches(candidates, Counted(initial, storeCounts), Counted(initial, storeCounts))
    requires forall k | k in candidates :: Settled(initial, Counted(initial, storeCounts), candidates[k])
    ensures GreatestClosed(candidates, counts, Kept(candidates, storeCounts))
  {
    var counted, kept := Counted(initial, storeCounts), Kept(candidates, storeCounts);
    KeptIsClosed(candidates, counts, initial, counted);
    forall other | Closed(candidates, counts, other) ensures other <= kept {
      KeptIsGreatest(candidates, counts, initial, counted, other);
    }
  }
}
