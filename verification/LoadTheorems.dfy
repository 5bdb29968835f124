/**
 What holds in every state of every run of the load protocol.
 */
module LoadTheorems {
  import opened Types
  import Sets
  import opened LoadProtocol
  import opened LoadInvariant
  import opened LoadInvariantProof
  import opened LoadReaders
  import opened LoadReadersProof

  // ---------------------------------------------------------------- every step keeps the readers' part

  ghost predicate Safe(s: State) { ReadersOk(s) }

  lemma StoreNextReaders(s: State, step: Step, s': State)
    requires Holds(s) && Safe(s) && StoreNext(s, step, s')
    ensures Safe(s')
  {
    match step {
      case StoreCache(t, slot, key, a) => StoreCacheReaders(s, t, slot, key, a);
      case StoreIndex(t) => StoreIndexReaders(s, t);
      case AddRoot(slot) => AddRootReaders(s, slot);
    }
  }

  lemma FlushBatchNextReaders(s: State, step: Step, s': State)
    requires Safe(s) && FlushBatchNext(s, step, s')
    ensures Safe(s')
  {
    ByBackground(s, s');
  }

  lemma FlushSlotNextReaders(s: State, step: Step, s': State)
    requires Holds(s) && Safe(s) && FlushSlotNext(s, step, s')
    ensures Safe(s')
  {
    match step {
      case FlushPurgeKey(key) => FlushPurgeKeyReaders(s, key);
      case FlushIndexKey(key) => FlushIndexKeyReaders(s, key);
      case FlushDrop => FlushDropReaders(s);
      case _ => FlushSlotMoves(s, step, s');
    }
  }

  lemma FlushSlotMoves(s: State, step: Step, s': State)
    requires Safe(s) && FlushSlotNext(s, step, s') && s.nextId !in s.storages
    requires step.FlushDead? || step.FlushWrite? || step.FlushIndexed? || step.FlushReclaimed?
    ensures Safe(s')
  {
    ByBackground(s, s');
  }

  lemma ReclaimNextReaders(s: State, step: Step, s': State)
    requires Safe(s) && ReclaimNext(s, step, s')
    ensures Safe(s')
  {
    ByBackground(s, s');
  }

  lemma CleanMoves(s: State, step: Step, s': State)
    requires Safe(s) && CleanNext(s, step, s') && !step.CleanKey?
    ensures Safe(s')
  {
    ByBackground(s, s');
  }

  lemma CleanKeySafe(s: State, key: Pubkey, slots: set<Slot>)
    requires Core(s) && Safe(s) && CanCleanKey(s, key, slots)
    ensures Safe(DoCleanKey(s, key, slots))
  {
    forall x | x in slots ensures x !in s.cache && forall c | c in s.cache && c in s.roots :: x < c {
      assert (key, x) in s.index;
      StoredIsOlder(s, x);
    }
    CleanKeyReaders(s, key, slots);
  }

  lemma CleanNextReaders(s: State, step: Step, s': State)
    requires Holds(s) && Safe(s) && CleanNext(s, step, s')
    ensures Safe(s')
  {
    match step {
      case CleanKey(key, slots) => CleanKeySafe(s, key, slots);
      case _ => CleanMoves(s, step, s');
    }
  }

  lemma PurgeNextReaders(s: State, step: Step, s': State)
    requires Holds(s) && Safe(s) && PurgeNext(s, step, s')
    ensures Safe(s')
  {
    match step {
      case BeginPurge(slot) => BeginPurgeReaders(s, slot);
      case PurgeKey(key) => PurgeKeyReaders(s, key);
      case EndPurge => EndPurgeReaders(s);
    }
  }

  lemma BeginShrinkSafe(s: State)
    requires Safe(s) && CanBeginShrink(s)
    ensures Safe(DoBeginShrink(s))
  {
    ByBackground(s, DoBeginShrink(s));
  }

  lemma ShrinkSlotSafe(s: State, slot: Slot, zero: set<Pubkey>)
    requires Safe(s) && CanShrinkSlot(s, slot, zero) && IdsOk(s.storages, s.nextId, s.counts)
    ensures Safe(DoShrinkSlot(s, slot, zero))
  {
    ByBackground(s, DoShrinkSlot(s, slot, zero));
  }

  lemma ShrinkZeroKeySafe(s: State, slot: Slot, key: Pubkey)
    requires Core(s) && Safe(s) && CanShrinkZeroKey(s, slot, key)
    ensures Safe(DoShrinkZeroKey(s, slot, key))
  {
    StoredIsOlder(s, slot);
    ShrinkZeroKeyReaders(s, slot, key);
  }

  lemma ShrinkIndexKeySafe(s: State, slot: Slot, key: Pubkey)
    requires Core(s) && Safe(s) && CanShrinkIndexKey(s, slot, key)
    ensures Safe(DoShrinkIndexKey(s, slot, key))
  {
    ShrinkIndexKeyReaders(s, slot, key);
  }

  lemma ShrinkSlotNextReaders(s: State, step: Step, s': State)
    requires Holds(s) && Safe(s) && ShrinkSlotNext(s, step, s')
    ensures Safe(s')
  {
    match step {
      case ShrinkIndexKey(slot, key) => ShrinkIndexKeySafe(s, slot, key);
      case ShrinkZeroKey(slot, key) => ShrinkZeroKeySafe(s, slot, key);
      case BeginShrink => BeginShrinkSafe(s);
      case ShrinkSlot(slot, zero) => ShrinkSlotSafe(s, slot, zero);
    }
  }

  lemma ShrinkSwapMoves(s: State, step: Step, s': State)
    requires Safe(s) && ShrinkSwapNext(s, step, s') && (step.ShrinkEnd? || step.EndShrink?)
    ensures Safe(s')
  {
    ByBackground(s, s');
  }

  lemma ShrinkSwapNextReaders(s: State, step: Step, s': State)
    requires Holds(s) && Safe(s) && ShrinkSwapNext(s, step, s')
    ensures Safe(s')
  {
    match step {
      case ShrinkSwap(slot) => ShrinkSwapReaders(s, slot);
      case _ => ShrinkSwapMoves(s, step, s');
    }
  }

  lemma LoadNextReaders(s: State, step: Step, s': State)
    requires Holds(s) && Safe(s) && LoadNext(s, step, s')
    ensures Safe(s')
  {
    match step {
      case BeginLoad(r, key, ancestors, fixed) => BeginLoadReaders(s, r, key, ancestors, fixed);
      case ReadNothing(r) => ReadNothingReaders(s, r);
      case ReadEntry(r, slot, lock) => ReadEntryReaders(s, r, slot, lock);
      case Lookup(r) => LookupReaders(s, r);
      case EndLoad(r) => EndLoadReaders(s, r);
    }
  }

  lemma EveryStepSafe(s: State, step: Step, s': State)
    requires Holds(s) && Safe(s) && Next(s, step, s')
    ensures Safe(s')
  {
    if StoreNext(s, step, s') {
      StoreNextReaders(s, step, s');
    } else if FlushBatchNext(s, step, s') {
      FlushBatchNextReaders(s, step, s');
    } else if FlushSlotNext(s, step, s') {
      FlushSlotNextReaders(s, step, s');
    } else if ReclaimNext(s, step, s') {
      ReclaimNextReaders(s, step, s');
    } else if CleanNext(s, step, s') {
      CleanNextReaders(s, step, s');
    } else if PurgeNext(s, step, s') {
      PurgeNextReaders(s, step, s');
    } else if ShrinkSlotNext(s, step, s') {
      ShrinkSlotNextReaders(s, step, s');
    } else if ShrinkSwapNext(s, step, s') {
      ShrinkSwapNextReaders(s, step, s');
    } else {
      LoadNextReaders(s, step, s');
    }
  }

  // ---------------------------------------------------------------- every run

  ghost predicate Inv(s: State) { Holds(s) && Safe(s) }

  lemma EmptyIsSafe()
    ensures Inv(EMPTY)
  {
    assert Core(EMPTY);
  }

  lemma {:induction false} InvariantOfRuns(states: seq<State>, steps: seq<Step>, i: nat)
    requires IsRun(states, steps) && i < |states|
    ensures Inv(states[i])
  {
    if i == 0 {
      EmptyIsSafe();
    } else {
      InvariantOfRuns(states, steps, i - 1);
      assert Next(states[i - 1], steps[i - 1], states[i - 1 + 1]);
      EveryStepKeeps(states[i - 1], steps[i - 1], states[i]);
      EveryStepSafe(states[i - 1], steps[i - 1], states[i]);
    }
  }

  /** An index entry refers to an account in the write cache, or to one in a storage that a map still has. */
  ghost predicate Dangles(s: State, p: (Pubkey, Slot)) requires p in s.index {
    match s.index[p]
    case Cached => p.1 !in s.cache || p.0 !in s.cache[p.1]
    case AppendVec(id) =>
      (!InMap(s.storageMap, p.1, id) && !InMap(s.shrinkMap, p.1, id)) || id !in s.storages ||
        p.0 !in s.storages[id].accounts
  }

  lemma NoEntryDangles(states: seq<State>, steps: seq<Step>, i: nat, p: (Pubkey, Slot))
    requires IsRun(states, steps) && i < |states| && p in states[i].index
    ensures !Dangles(states[i], p)
    ensures var s := states[i];
      match s.index[p]
      case Cached => p.1 in s.cache && p.0 in s.cache[p.1]
      case AppendVec(id) =>
        && ((p.1 in s.storageMap && s.storageMap[p.1] == id) || (p.1 in s.shrinkMap && s.shrinkMap[p.1] == id))
        && id in s.storages && p.0 in s.storages[id].accounts
  {
    InvariantOfRuns(states, steps, i);
  }

  /** No reader ever detects a bad index entry or loses an account it holds the lock of. */
  lemma NoReaderPanics(states: seq<State>, steps: seq<Step>, i: nat, r: nat)
    requires IsRun(states, steps) && i < |states| && r in states[i].readers
    ensures !states[i].readers[r].phase.Panicked?
  {
    InvariantOfRuns(states, steps, i);
  }

  /** While the root is fixed, a load misses the write cache at most once. */
  lemma FixedRootMissesOnce(states: seq<State>, steps: seq<Step>, i: nat, r: nat)
    requires IsRun(states, steps) && i < |states| && r in states[i].readers && states[i].readers[r].fixed
    ensures states[i].readers[r].misses <= 1
  {
    InvariantOfRuns(states, steps, i);
  }

  /** What a load returns is what was stored in the slot it returns. */
  lemma LoadsWhatWasStored(states: seq<State>, steps: seq<Step>, i: nat, r: nat)
    requires IsRun(states, steps) && i < |steps| && steps[i] == Lookup(r)
    requires states[i + 1].readers[r].phase.Loaded?
    ensures var reader := states[i].readers[r]; var phase := states[i + 1].readers[r].phase;
      && phase.slot in states[i].history && reader.key in states[i].history[phase.slot]
      && states[i].history[phase.slot][reader.key] == phase.account
  {
    InvariantOfRuns(states, steps, i);
    assert Next(states[i], steps[i], states[i + 1]);
    LookupReads(states[i], r);
  }

  lemma LookupReads(s: State, r: nat)
    requires CanLookup(s, r) && AfterLookup(s, s.readers[r]).phase.Loaded?
    requires PhaseOk(s.nextId, s.storages, s.storageMap, s.shrinkMap, s.readers[r])
    requires ContentOk(s.storages, s.everRooted, s.history)
    requires CacheOk(s.cache, s.history, s.storageMap, s.background)
    ensures var key, phase := s.readers[r].key, AfterLookup(s, s.readers[r]).phase;
      phase.slot in s.history && key in s.history[phase.slot] && s.history[phase.slot][key] == phase.account
  {}

  // ---------------------------------------------------------------- what a load returns

  /** The slot whose version the reader is looking up. */
  predicate LooksUp(phase: ReaderPhase, slot: Slot) {
    match phase
    case LookupCache(x) => x == slot
    case LookupMap(x, _) => x == slot
    case LookupShrinkMap(x, _) => x == slot
    case LookupMapAgain(x, _) => x == slot
    case _ => false
  }

  /** The same load is in progress in states `j` to `i`, and at `j` the version at `slot` was its newest visible one. */
  ghost predicate ReadAt(states: seq<State>, r: nat, j: nat, i: nat, slot: Slot) {
    && j <= i < |states|
    && (forall k | j <= k <= i :: SameLoad(states[k].readers, states[i].readers, r))
    && IsLatest(states[j].index, states[j].roots, states[j].readers[r].key, states[j].readers[r].ancestors, slot)
  }

  predicate SameLoad(readers: map<nat, Reader>, readers': map<nat, Reader>, r: nat) {
    && r in readers && r in readers'
    && readers[r].key == readers'[r].key && readers[r].ancestors == readers'[r].ancestors
  }

  predicate StepsReader(step: Step, r: nat) {
    match step
    case BeginLoad(x, _, _, _) => x == r
    case ReadNothing(x) => x == r
    case ReadEntry(x, _, _) => x == r
    case Lookup(x) => x == r
    case EndLoad(x) => x == r
    case _ => false
  }

  lemma OthersLeaveReader(s: State, step: Step, s': State, r: nat)
    requires Next(s, step, s') && !StepsReader(step, r) && r in s'.readers
    ensures r in s.readers && s.readers[r] == s'.readers[r]
  {
    if !LoadNext(s, step, s') { OnlyLoadsTouchReaders(s, step, s'); }
  }

  lemma StoreLeavesReaders(s: State, step: Step, s': State)
    requires StoreNext(s, step, s')
    ensures s'.readers == s.readers
  {}

  lemma FlushBatchLeavesReaders(s: State, step: Step, s': State)
    requires FlushBatchNext(s, step, s')
    ensures s'.readers == s.readers
  {}

  lemma FlushSlotLeavesReaders(s: State, step: Step, s': State)
    requires FlushSlotNext(s, step, s')
    ensures s'.readers == s.readers
  {}

  lemma ReclaimLeavesReaders(s: State, step: Step, s': State)
    requires ReclaimNext(s, step, s')
    ensures s'.readers == s.readers
  {}

  lemma CleanLeavesReaders(s: State, step: Step, s': State)
    requires CleanNext(s, step, s')
    ensures s'.readers == s.readers
  {}

  lemma PurgeLeavesReaders(s: State, step: Step, s': State)
    requires PurgeNext(s, step, s')
    ensures s'.readers == s.readers
  {}

  lemma ShrinkSlotLeavesReaders(s: State, step: Step, s': State)
    requires ShrinkSlotNext(s, step, s')
    ensures s'.readers == s.readers
  {}

  lemma ShrinkSwapLeavesReaders(s: State, step: Step, s': State)
    requires ShrinkSwapNext(s, step, s')
    ensures s'.readers == s.readers
  {}

  lemma OnlyLoadsTouchReaders(s: State, step: Step, s': State)
    requires Next(s, step, s') && !LoadNext(s, step, s')
    ensures s'.readers == s.readers
  {
    if StoreNext(s, step, s') {
      StoreLeavesReaders(s, step, s');
    } else if FlushBatchNext(s, step, s') {
      FlushBatchLeavesReaders(s, step, s');
    } else if FlushSlotNext(s, step, s') {
      FlushSlotLeavesReaders(s, step, s');
    } else if ReclaimNext(s, step, s') {
      ReclaimLeavesReaders(s, step, s');
    } else if CleanNext(s, step, s') {
      CleanLeavesReaders(s, step, s');
    } else if PurgeNext(s, step, s') {
      PurgeLeavesReaders(s, step, s');
    } else if ShrinkSlotNext(s, step, s') {
      ShrinkSlotLeavesReaders(s, step, s');
    } else {
      ShrinkSwapLeavesReaders(s, step, s');
    }
  }

  /** The step before a lookup is the same lookup, an earlier one of the same version, or the read of the index. */
  lemma BeforeLookup(s: State, step: Step, s': State, r: nat, slot: Slot)
    requires Next(s, step, s') && StepsReader(step, r) && r in s'.readers && LooksUp(s'.readers[r].phase, slot)
    ensures SameLoad(s.readers, s'.readers, r)
    ensures LooksUp(s.readers[r].phase, slot) ||
      IsLatest(s.index, s.roots, s.readers[r].key, s.readers[r].ancestors, slot)
  {}

  lemma {:induction false} LookupWasLatest(states: seq<State>, steps: seq<Step>, i: nat, r: nat, slot: Slot)
    returns (j: nat)
    requires IsRun(states, steps) && i < |states| && r in states[i].readers && LooksUp(states[i].readers[r].phase, slot)
    ensures ReadAt(states, r, j, i, slot)
  {
    assert i > 0;
    var s, step, s' := states[i - 1], steps[i - 1], states[i];
    assert Next(states[i - 1], steps[i - 1], states[i - 1 + 1]);
    if StepsReader(step, r) {
      BeforeLookup(s, step, s', r, slot);
    } else {
      OthersLeaveReader(s, step, s', r);
    }
    if LooksUp(s.readers[r].phase, slot) {
      j := LookupWasLatest(states, steps, i - 1, r, slot);
    } else {
      j := i - 1;
    }
  }

  /** A load returns the version that was the newest visible one at some moment during the load. */
  lemma LoadsTheLatest(states: seq<State>, steps: seq<Step>, i: nat, r: nat) returns (j: nat)
    requires IsRun(states, steps) && i < |steps| && steps[i] == Lookup(r)
    requires states[i + 1].readers[r].phase.Loaded?
    ensures ReadAt(states, r, j, i, states[i + 1].readers[r].phase.slot)
  {
    assert Next(states[i], steps[i], states[i + 1]);
    j := LookupWasLatest(states, steps, i, r, states[i + 1].readers[r].phase.slot);
  }

  // ---------------------------------------------------------------- what readers meet

  /** A reader that retries does not find the storage it could not open in the index again. */
  lemma NoBadEntry(states: seq<State>, steps: seq<Step>, i: nat, r: nat, slot: Slot, lock: bool)
    requires IsRun(states, steps) && i < |steps| && steps[i] == ReadEntry(r, slot, lock)
    ensures r in states[i].readers && (states[i].readers[r].key, slot) in states[i].index
    ensures states[i].readers[r].phase.ReadIndex?
    ensures var location := states[i].index[(states[i].readers[r].key, slot)];
      location.AppendVec? ==> states[i].readers[r].phase.prev != Some((slot, location))
  {
    assert Next(states[i], steps[i], states[i + 1]);
    NoReaderPanics(states, steps, i + 1, r);
  }

  /** A reader that holds the lock of the entry finds its account, and a storage that is found has it. */
  lemma LockedFinds(states: seq<State>, steps: seq<Step>, i: nat, r: nat)
    requires IsRun(states, steps) && i < |steps| && steps[i] == Lookup(r)
    ensures r in states[i].readers
    ensures var s, reader := states[i], states[i].readers[r];
      match reader.phase
      case LookupCache(slot) => reader.locked ==> slot in s.cache && reader.key in s.cache[slot]
      case LookupMap(slot, id) =>
        slot in s.storageMap && s.storageMap[slot] == id ==> id in s.storages && reader.key in s.storages[id].accounts
      case LookupShrinkMap(slot, id) =>
        slot in s.shrinkMap && s.shrinkMap[slot] == id ==> id in s.storages && reader.key in s.storages[id].accounts
      case LookupMapAgain(slot, id) =>
        && (slot in s.storageMap && s.storageMap[slot] == id ==>
              id in s.storages && reader.key in s.storages[id].accounts)
        && (reader.locked ==> slot in s.storageMap && s.storageMap[slot] == id)
      case _ => true
  {
    assert Next(states[i], steps[i], states[i + 1]);
    NoReaderPanics(states, steps, i + 1, r);
  }

  lemma MissesStep(s: State, step: Step, s': State, r: nat)
    requires Next(s, step, s') && r in s.readers && r in s'.readers
    ensures s.readers[r].misses <= s'.readers[r].misses
  {
    if !StepsReader(step, r) { OthersLeaveReader(s, step, s', r); }
  }

  lemma {:induction false} MissesGrow(states: seq<State>, steps: seq<Step>, i: nat, j: nat, r: nat)
    requires IsRun(states, steps) && i <= j < |states| && forall k | i <= k <= j :: r in states[k].readers
    ensures states[i].readers[r].misses <= states[j].readers[r].misses
    decreases j
  {
    if i < j {
      MissesGrow(states, steps, i, j - 1, r);
      assert Next(states[j - 1], steps[j - 1], states[j - 1 + 1]);
      MissesStep(states[j - 1], steps[j - 1], states[j], r);
    }
  }

  /** The reader looked in the write cache, did not find its account, and goes back to the index. */
  predicate MissesCache(before: Reader, after: Reader) {
    before.phase.LookupCache? && after.phase.ReadIndex?
  }

  lemma MissCounts(s: State, s': State, r: nat)
    requires Next(s, Lookup(r), s') && r in s.readers && r in s'.readers && MissesCache(s.readers[r], s'.readers[r])
    ensures s'.readers[r].misses == s.readers[r].misses + 1
  {}

  /** A load with a fixed root goes back to the index from the write cache at most once. */
  lemma SecondLookupHits(states: seq<State>, steps: seq<Step>, i: nat, j: nat, r: nat)
    requires IsRun(states, steps) && i < j < |steps| && steps[i] == Lookup(r) && steps[j] == Lookup(r)
    requires forall k | i <= k <= j + 1 :: r in states[k].readers && states[k].readers[r].fixed
    requires MissesCache(states[i].readers[r], states[i + 1].readers[r])
    ensures !MissesCache(states[j].readers[r], states[j + 1].readers[r])
  {
    assert Next(states[i], steps[i], states[i + 1]) && Next(states[j], steps[j], states[j + 1]);
    hide Next, IsRun;
    MissCounts(states[i], states[i + 1], r);
    MissesGrow(states, steps, i + 1, j, r);
    FixedRootMissesOnce(states, steps, j + 1, r);
    if MissesCache(states[j].readers[r], states[j + 1].readers[r]) {
      MissCounts(states[j], states[j + 1], r);
      assert false;
    }
  }

  // ---------------------------------------------------------------- counts

  /** A storage counts exactly the index entries that refer to it when no background work runs, and no fewer in a flush
      or a clean. In a shrink the same holds of every storage but one being replaced, whose replacement counts the
      entries that have moved and those that are about to. */
  lemma CountsAreExact(states: seq<State>, steps: seq<Step>, i: nat, slot: Slot)
    requires IsRun(states, steps) && i < |states| && slot in states[i].storageMap
    ensures var s, b, id := states[i], states[i].background, states[i].storageMap[slot];
      && (!BeingReplaced(b, slot) ==> id in s.counts && s.counts[id] >= |Refs(s.index, slot, id)|)
      && (b.Idle? || (b.Shrinking? && !BeingReplaced(b, slot)) ==>
           id in s.counts && s.counts[id] == |Refs(s.index, slot, id)|)
      && (BeingReplaced(b, slot) ==> var next := b.slots[slot];
            next.id in s.counts && s.counts[next.id] == |Rewritten(s.index, slot, next.id, next.left)|)
  {
    InvariantOfRuns(states, steps, i);
    var s := states[i];
    if !BeingReplaced(s.background, slot) {
      CountIsExact(s, slot);
    } else {
      ReplacementCounts(s, slot);
    }
  }

  lemma CountIsExact(s: State, slot: Slot)
    requires slot in s.storageMap && !BeingReplaced(s.background, slot)
    requires CountsOk(s.index, s.background, s.reclaims, s.storageMap, s.counts)
    requires ReclaimsOk(s.reclaims, s.index, s.storageMap, s.background)
    ensures var id := s.storageMap[slot];
      && id in s.counts && s.counts[id] >= |Refs(s.index, slot, id)|
      && (s.background.Idle? || s.background.Shrinking? ==> s.counts[id] == |Refs(s.index, slot, id)|)
  {
    var id := s.storageMap[slot];
    var counted, refs := Counted(s.index, s.background, s.reclaims, slot, id), Refs(s.index, slot, id);
    hide Counted, Refs;
    Sets.SubsetSize(refs, counted);
    if s.background.Idle? || s.background.Shrinking? { assert counted == refs; }
  }

  lemma ReplacementCounts(s: State, slot: Slot)
    requires slot in s.storageMap && BeingReplaced(s.background, slot)
    requires ShrinkOk(s.background, s.index, s.storages, s.storageMap, s.shrinkMap, s.counts)
    ensures var next := s.background.slots[slot];
      next.id in s.counts && s.counts[next.id] == |Rewritten(s.index, slot, next.id, next.left)|
  {
    hide Rewritten;
  }

  /** A storage is removed only when no index entry of its slot is left. */
  lemma RemovedIsUnreferenced(states: seq<State>, steps: seq<Step>, i: nat, slot: Slot)
    requires IsRun(states, steps) && i < |steps| && steps[i] == RemoveStorage(slot)
    ensures forall p | p in states[i].index :: p.1 != slot
  {
    InvariantOfRuns(states, steps, i);
    assert Next(states[i], steps[i], states[i + 1]);
    DeadUnreferenced(states[i], slot);
  }
}
