/**
 The alive counters of the storages. A storage counts its alive accounts and their bytes; the counters go up when
 accounts are written and down when index entries are reclaimed. The module proves that they are exact: each counts
 precisely the index entries that point into its storage.
 */
module StorageAccounting {
  import opened Types

  type Offset = nat

  /** An index entry that points into the storage of a slot. */
  type Reference = (Slot, Offset)

  datatype MarkAccountsObsolete = No | Yes(slot: Slot)
  datatype ObsoleteAccountItem = ObsoleteAccountItem(offset: Offset, slot: Slot)

  // ---------------------------------------------------------------- total sizes

  /** The bytes of the records at the offsets. */
  ghost function TotalSize(sizes: map<Offset, nat>, offsets: set<Offset>): nat
    requires offsets <= sizes.Keys
  {
    if offsets == {} then 0 else var o :| o in offsets; sizes[o] + TotalSize(sizes, offsets - {o})
  }

  lemma {:induction false} TotalWithout(sizes: map<Offset, nat>, offsets: set<Offset>, o: Offset)
    requires offsets <= sizes.Keys && o in offsets
    ensures TotalSize(sizes, offsets) == sizes[o] + TotalSize(sizes, offsets - {o})
    decreases offsets
  {
    var p :| p in offsets && TotalSize(sizes, offsets) == sizes[p] + TotalSize(sizes, offsets - {p});
    if p != o {
      TotalWithout(sizes, offsets - {p}, o);
      TotalWithout(sizes, offsets - {o}, p);
      assert offsets - {p} - {o} == offsets - {o} - {p};
    }
  }

  lemma {:induction false} TotalSplits(sizes: map<Offset, nat>, all: set<Offset>, part: set<Offset>)
    requires part <= all <= sizes.Keys
    ensures TotalSize(sizes, all) == TotalSize(sizes, part) + TotalSize(sizes, all - part)
    decreases part
  {
    if part == {} {
      assert all - part == all;
    } else {
      var o :| o in part;
      TotalSplits(sizes, all - {o}, part - {o});
      TotalWithout(sizes, all, o);
      TotalWithout(sizes, part, o);
      assert all - {o} - (part - {o}) == all - part;
    }
  }

  /** Adds up the stored sizes one by one. */
  method SumSizes(sizes: map<Offset, nat>, offsets: set<Offset>) returns (bytes: nat)
    requires offsets <= sizes.Keys
    ensures bytes == TotalSize(sizes, offsets)
  {
    bytes := 0;
    var todo := offsets;
    assert offsets - todo == {};
    while todo != {}
      invariant todo <= offsets && bytes == TotalSize(sizes, offsets - todo)
      decreases todo
    {
      var o :| o in todo;
      TotalWithout(sizes, offsets - (todo - {o}), o);
      assert offsets - (todo - {o}) - {o} == offsets - todo;
      todo := todo - {o};
      bytes := bytes + sizes[o];
    }
    assert offsets - todo == offsets;
  }

  // ---------------------------------------------------------------- one storage

  /** No account is marked twice, and no alive account is marked. */
  ghost predicate MarkedOnce(obsolete: seq<ObsoleteAccountItem>, alive: set<Offset>) {
    && (forall i | 0 <= i < |obsolete| :: obsolete[i].offset !in alive)
    && (forall i, j | 0 <= i < j < |obsolete| :: obsolete[i].offset != obsolete[j].offset)
  }

  class AccountStorageEntry {
    const slot: Slot
    /** The stored size of each record. */
    const sizes: map<Offset, nat>
    var count: nat
    var aliveBytes: nat
    var obsolete: seq<ObsoleteAccountItem>

    /** The counters are those of the alive offsets. */
    ghost predicate Exact(alive: set<Offset>)
      reads this
    {
      && alive <= sizes.Keys && count == |alive| && aliveBytes == TotalSize(sizes, alive)
      && MarkedOnce(obsolete, alive)
    }

    /** A storage and the accounts written to it. Every record it has is alive. */
    constructor (slot: Slot, sizes: map<Offset, nat>)
      ensures this.slot == slot && this.sizes == sizes && obsolete == [] && Exact(sizes.Keys)
    {
      this.slot, this.sizes, count, aliveBytes, obsolete := slot, sizes, 0, 0, [];
      new;
      var bytes := SumSizes(sizes, sizes.Keys);
      AddAccounts(|sizes.Keys|, bytes);
    }

    method AddAccounts(numAccounts: nat, numBytes: nat)
      modifies this`count, this`aliveBytes
      ensures count == old(count) + numAccounts && aliveBytes == old(aliveBytes) + numBytes
    {
      count, aliveBytes := count + numAccounts, aliveBytes + numBytes;
    }

    /** The precondition is the assertion against removing too much. */
    method RemoveAccounts(numBytes: nat, numAccounts: nat) returns (remaining: nat)
      requires numBytes <= aliveBytes && numAccounts <= count
      modifies this`count, this`aliveBytes
      ensures remaining == count == old(count) - numAccounts && aliveBytes == old(aliveBytes) - numBytes
    {
      count, aliveBytes := count - numAccounts, aliveBytes - numBytes;
      remaining := count;
    }

    method Mark(offsets: set<Offset>, at: Slot, ghost alive: set<Offset>)
      requires offsets <= alive && MarkedOnce(obsolete, alive)
      modifies this`obsolete
      ensures MarkedOnce(obsolete, alive - offsets) && old(obsolete) <= obsolete
      ensures forall i | |old(obsolete)| <= i < |obsolete| :: obsolete[i].slot == at && obsolete[i].offset in offsets
      ensures |obsolete| == |old(obsolete)| + |offsets|
    {
      var todo := offsets;
      while todo != {}
        invariant todo <= offsets && old(obsolete) <= obsolete
        invariant |obsolete| + |todo| == |old(obsolete)| + |offsets|
        invariant MarkedOnce(obsolete, (alive - offsets) + todo)
        invariant forall i | |old(obsolete)| <= i < |obsolete| ::
          obsolete[i].slot == at && obsolete[i].offset in offsets
        decreases todo
      {
        var o :| o in todo;
        obsolete := obsolete + [ObsoleteAccountItem(o, at)];
        todo := todo - {o};
      }
      assert alive - offsets + todo == alive - offsets;
    }

    /** Takes some alive accounts out. When they are all that is left, the bytes that remain are theirs. */
    method RemoveDead(offsets: set<Offset>, mark: MarkAccountsObsolete, ghost alive: set<Offset>)
      returns (remaining: nat)
      requires Exact(alive) && offsets <= alive
      modifies this
      ensures Exact(alive - offsets) && remaining == |alive - offsets|
      ensures mark.Yes? && offsets != alive ==> |obsolete| == |old(obsolete)| + |offsets|
      ensures mark.No? || offsets == alive ==> obsolete == old(obsolete)
      ensures old(obsolete) <= obsolete
      ensures forall i | |old(obsolete)| <= i < |obsolete| ::
        mark.Yes? && obsolete[i] == ObsoleteAccountItem(obsolete[i].offset, mark.slot)
      ensures forall i | |old(obsolete)| <= i < |obsolete| :: obsolete[i].offset in offsets
    {
      TotalSplits(sizes, alive, offsets);
      SizeOfPart(alive, offsets);
      if |offsets| == count {
        assert alive - offsets == {};
        remaining := RemoveAccounts(aliveBytes, |offsets|);
      } else {
        var deadBytes := SumSizes(sizes, offsets);
        remaining := RemoveAccounts(deadBytes, |offsets|);
        if mark.Yes? { Mark(offsets, mark.slot, alive); }
      }
    }
  }

  lemma SizeOfPart(all: set<Offset>, part: set<Offset>)
    requires part <= all
    ensures |all| == |part| + |all - part| && (|part| == |all| <==> part == all)
  {
    assert all == part + (all - part);
    if |part| == |all| { assert all - part == {}; }
  }

  // ---------------------------------------------------------------- all storages

  ghost function AliveIn(index: set<Reference>, slot: Slot): set<Offset> {
    set r | r in index && r.0 == slot :: r.1
  }

  function Offsets(reclaims: seq<Reference>, slot: Slot): set<Offset> {
    set r | r in reclaims && r.0 == slot :: r.1
  }

  ghost function Remaining(index: set<Reference>, reclaims: seq<Reference>): set<Reference> {
    set r | r in index && r !in reclaims
  }

  ghost function Elsewhere(index: set<Reference>, slot: Slot): set<Reference> {
    set r | r in index && r.0 != slot
  }

  lemma AliveRemain(index: set<Reference>, reclaims: seq<Reference>, slot: Slot)
    requires forall r | r in reclaims :: r in index
    ensures Offsets(reclaims, slot) <= AliveIn(index, slot)
    ensures AliveIn(Remaining(index, reclaims), slot) == AliveIn(index, slot) - Offsets(reclaims, slot)
  {
    forall o ensures o in AliveIn(Remaining(index, reclaims), slot) <==> (slot, o) in index && (slot, o) !in reclaims {}
    forall o ensures o in AliveIn(index, slot) <==> (slot, o) in index {}
    forall o ensures o in Offsets(reclaims, slot) <==> (slot, o) in reclaims {}
  }

  class AccountStorage {
    var entries: map<Slot, AccountStorageEntry>
    /** The entries of the accounts index that point into storages. */
    ghost var index: set<Reference>

    ghost predicate Valid()
      reads this, entries.Values
    {
      && (forall s | s in entries :: entries[s].slot == s && entries[s].Exact(AliveIn(index, s)))
      && (forall r | r in index :: r.0 in entries)
    }

    constructor ()
      ensures Valid() && entries == map[] && index == {}
    {
      entries, index := map[], {};
    }

    /** Writes accounts to a new storage of the slot and points the index there. Flushing gives a slot its storage;
        shrinking replaces the one it has, and every entry into the slot moves. */
    method StoreAccountsFrozen(slot: Slot, sizes: map<Offset, nat>)
      requires Valid()
      modifies this
      ensures Valid() && index == Elsewhere(old(index), slot) + set o | o in sizes :: (slot, o)
      ensures entries.Keys == old(entries.Keys) + {slot} && entries[slot].sizes == sizes
      ensures forall s | s in old(entries) && s != slot :: entries[s] == old(entries[s])
    {
      hide AccountStorageEntry.Exact, AliveIn;
      var entry := new AccountStorageEntry(slot, sizes);
      ghost var before := index;
      entries := entries[slot := entry];
      index := Elsewhere(index, slot) + set o | o in sizes :: (slot, o);
      forall s | s in entries ensures AliveIn(index, s) == if s == slot then sizes.Keys else AliveIn(before, s) {
        AliveAfterStore(before, slot, sizes, s);
      }
    }

    /** Accounts for index entries that were reclaimed: groups them by slot, lowers the counters of each storage, and
        reports the slots whose storages have no alive account. */
    method RemoveDeadAccounts(reclaims: seq<Reference>, mark: MarkAccountsObsolete)
      returns (deadSlots: set<Slot>, reclaimedOffsets: map<Slot, set<Offset>>)
      requires Valid() && forall r | r in reclaims :: r in index
      modifies this`index, entries.Values
      ensures Valid() && index == Remaining(old(index), reclaims)
      ensures reclaimedOffsets.Keys == set r | r in reclaims :: r.0
      ensures forall s | s in reclaimedOffsets :: reclaimedOffsets[s] == Offsets(reclaims, s)
      ensures forall s: Slot :: s in deadSlots <==> s in reclaimedOffsets && forall r | r in index :: r.0 != s
    {
      hide AliveIn, Offsets, AccountStorageEntry.Exact;
      reclaimedOffsets := GroupBySlot(reclaims);
      ghost var after := Remaining(index, reclaims);
      AllRemain(index, reclaims, reclaimedOffsets);
      var lowered := LowerCounters(reclaimedOffsets, mark, after);
      index := after;
      deadSlots := Retain(lowered);
      forall s: Slot ensures AliveIn(after, s) == {} <==> forall r | r in after :: r.0 != s { NothingAlive(after, s); }
    }

    /** Keeps the slots whose storages have no alive account. */
    method Retain(slots: set<Slot>) returns (dead: set<Slot>)
      requires Valid() && slots <= entries.Keys
      ensures forall s: Slot :: s in dead <==> s in slots && forall r | r in index :: r.0 != s
    {
      dead := set s | s in slots && entries[s].count == 0;
      forall s | s in slots ensures s in dead <==> forall r | r in index :: r.0 != s {
        assert entries[s].Exact(AliveIn(index, s));
        NothingAlive(index, s);
      }
    }

    /** Lowers the counters of the storages that lose accounts. */
    method LowerCounters(groups: map<Slot, set<Offset>>, mark: MarkAccountsObsolete, ghost after: set<Reference>)
      returns (deadSlots: set<Slot>)
      requires Valid() && groups.Keys <= entries.Keys
      requires forall s | s in groups :: groups[s] <= AliveIn(index, s)
      requires forall s | s in entries ::
        AliveIn(after, s) == AliveIn(index, s) - (if s in groups then groups[s] else {})
      modifies entries.Values
      ensures forall s | s in entries :: entries[s].Exact(AliveIn(after, s))
      ensures forall s: Slot :: s in deadSlots <==> s in groups && AliveIn(after, s) == {}
    {
      hide AliveIn, AccountStorageEntry.Exact;
      deadSlots := {};
      var todo := groups.Keys;
      assert forall s | s in entries && s !in todo :: AliveIn(after, s) == AliveIn(index, s);
      while todo != {}
        invariant todo <= groups.Keys
        invariant forall s | s in entries :: entries[s].Exact(AliveIn(if s in todo then index else after, s))
        invariant forall s: Slot :: s in deadSlots <==> s in groups.Keys - todo && AliveIn(after, s) == {}
        decreases todo
      {
        var s :| s in todo;
        assert forall t | t in entries && t != s :: entries[t] != entries[s];
        var remaining := entries[s].RemoveDead(groups[s], mark, AliveIn(index, s));
        todo := todo - {s};
        if remaining == 0 { deadSlots := deadSlots + {s}; }
      }
    }

    /** Drops storages that no index entry refers to. */
    method RemoveDeadSlots(deadSlots: set<Slot>)
      requires Valid() && forall r | r in index :: r.0 !in deadSlots
      modifies this`entries
      ensures Valid() && entries == old(entries) - deadSlots
    {
      entries := entries - deadSlots;
    }
  }

  lemma AliveAfterStore(index: set<Reference>, slot: Slot, sizes: map<Offset, nat>, s: Slot)
    ensures AliveIn(Elsewhere(index, slot) + set o | o in sizes :: (slot, o), s)
         == if s == slot then sizes.Keys else AliveIn(index, s)
  {
    var after := Elsewhere(index, slot) + set o | o in sizes :: (slot, o);
    forall o ensures o in AliveIn(after, s) <==> (s, o) in after {}
    forall o ensures o in AliveIn(index, s) <==> (s, o) in index {}
  }

  lemma NothingAlive(index: set<Reference>, s: Slot)
    ensures AliveIn(index, s) == {} <==> forall r | r in index :: r.0 != s
  {
    forall r | r in index && r.0 == s ensures r.1 in AliveIn(index, s) {}
  }

  lemma AllRemain(index: set<Reference>, reclaims: seq<Reference>, groups: map<Slot, set<Offset>>)
    requires forall r | r in reclaims :: r in index
    requires groups.Keys == set r | r in reclaims :: r.0
    requires forall s | s in groups :: groups[s] == Offsets(reclaims, s)
    ensures forall s | s in groups :: groups[s] <= AliveIn(index, s) && exists r :: r in index && r.0 == s
    ensures forall s: Slot ::
      AliveIn(Remaining(index, reclaims), s) == AliveIn(index, s) - (if s in groups then groups[s] else {})
  {
    forall s: Slot
      ensures s in groups ==> groups[s] <= AliveIn(index, s)
      ensures AliveIn(Remaining(index, reclaims), s) == AliveIn(index, s) - (if s in groups then groups[s] else {})
    {
      AliveRemain(index, reclaims, s);
      assert s !in groups ==> Offsets(reclaims, s) == {};
    }
  }

  method GroupBySlot(reclaims: seq<Reference>) returns (groups: map<Slot, set<Offset>>)
    ensures groups.Keys == set r | r in reclaims :: r.0
    ensures forall s | s in groups :: groups[s] == Offsets(reclaims, s)
  {
    groups := map[];
    for i := 0 to |reclaims|
      invariant groups.Keys == set r | r in reclaims[..i] :: r.0
      invariant forall s | s in groups :: groups[s] == Offsets(reclaims[..i], s)
    {
      var (slot, offset) := reclaims[i];
      assert reclaims[..i + 1] == reclaims[..i] + [reclaims[i]];
      assert slot !in groups ==> Offsets(reclaims[..i], slot) == {};
      groups := groups[slot := (if slot in groups then groups[slot] else {}) + {offset}];
    }
    assert reclaims[..|reclaims|] == reclaims;
  }
}
