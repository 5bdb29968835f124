/**
 One key's slot list beside the database's index: the upsert of a flush changes the list, the reclaims and the
 reference count of the key as the whole-index model says.
 */
module IndexEntry {
  import opened Types
  import D = Database
  import S = SlotList

  /** The list holds exactly the key's entries. */
  ghost predicate Lists(list: seq<S.Item>, index: D.Index, k: Pubkey) {
    && S.Distinct(list)
    && forall x: Slot, c: bool :: S.Item(x, c) in list <==> (k, x) in index && index[(k, x)].Cached? == c
  }

  ghost function StoredSlots(list: seq<S.Item>): set<Slot> {
    set item | item in list && !item.cached :: item.slot
  }

  lemma InStoredSlots(list: seq<S.Item>, x: Slot)
    ensures x in StoredSlots(list) <==> S.Item(x, false) in list
  {}

  lemma {:induction false} CountsStored(list: seq<S.Item>)
    requires S.Distinct(list)
    ensures S.StoredCount(list) == |StoredSlots(list)|
  {
    if list != [] {
      var front, last := list[..|list| - 1], list[|list| - 1];
      assert list == front + [last];
      CountsStored(front);
      if last.cached {
        assert StoredSlots(list) == StoredSlots(front);
      } else {
        assert StoredSlots(list) == StoredSlots(front) + {last.slot};
        assert last.slot !in StoredSlots(front);
      }
    }
  }

  ghost function Stored(index: D.Index, k: Pubkey): set<Slot> {
    set p | p in index && p.0 == k && index[p].Stored? :: p.1
  }

  lemma ListsStored(list: seq<S.Item>, index: D.Index, k: Pubkey)
    requires Lists(list, index, k)
    ensures S.StoredCount(list) == |Stored(index, k)|
  {
    CountsStored(list);
    forall x: Slot ensures x in StoredSlots(list) <==> x in Stored(index, k) {
      InStoredSlots(list, x);
      assert x in Stored(index, k) <==> (k, x) in index && index[(k, x)].Stored?;
    }
    assert StoredSlots(list) == Stored(index, k);
  }

  lemma FlushedStored(index: D.Index, k: Pubkey, slot: Slot, reclaim: bool)
    requires (k, slot) in index && index[(k, slot)].Cached?
    ensures var outdated := D.Outdated(index, slot, {k}, reclaim);
      |Stored(D.FlushIndex(index, slot, {}, {k}, outdated), k)| == |Stored(index, k)| + 1 - |D.SlotsOf(outdated, k)|
  {
    var outdated := D.Outdated(index, slot, {k}, reclaim);
    var before, lost, after := Stored(index, k), D.SlotsOf(outdated, k),
      Stored(D.FlushIndex(index, slot, {}, {k}, outdated), k);
    forall x: Slot ensures x in after <==> (x in before && x !in lost) || x == slot {
      assert x in before <==> (k, x) in index && index[(k, x)].Stored?;
      assert x in lost <==> (k, x) in outdated;
      var index' := D.FlushIndex(index, slot, {}, {k}, outdated);
      assert x in after <==> (k, x) in index' && index'[(k, x)].Stored?;
    }
    forall x | x in lost ensures x in before { assert (k, x) in outdated; }
    OneMore(before, lost, after, slot);
  }

  lemma OneMore(before: set<Slot>, lost: set<Slot>, after: set<Slot>, slot: Slot)
    requires lost <= before && slot !in before && forall x :: x in after <==> (x in before && x !in lost) || x == slot
    ensures |after| == |before| + 1 - |lost|
  {
    assert after == (before - lost) + {slot};
    assert before == (before - lost) + lost;
  }

  /** Upserts the newly written version of one key: the flush replaces its cached entry, and with obsolete marks it
      reclaims the older stored ones. */
  method UpsertWritten(list: seq<S.Item>, slot: Slot, reclaim: bool, ghost index: D.Index, ghost refs: D.Refs,
                       ghost k: Pubkey)
    returns (updated: seq<S.Item>, reclaims: seq<S.Item>, refCountChange: int)
    requires Lists(list, index, k) && (k, slot) in index && index[(k, slot)].Cached?
    ensures var outdated := D.Outdated(index, slot, {k}, reclaim);
      && Lists(updated, D.FlushIndex(index, slot, {}, {k}, outdated), k)
      && (forall item :: item in reclaims <==> !item.cached && (k, item.slot) in outdated)
      && D.Ref(refs, k) + refCountChange == D.Ref(D.FlushRefs(refs, {k}, outdated), k)
  {
    updated, reclaims, refCountChange := S.UpdateSlotList(list, slot, None, if reclaim then S.ReclaimOldSlots
      else S.IgnoreReclaims);
    ghost var outdated := D.Outdated(index, slot, {k}, reclaim);
    UpdatedLists(list, slot, reclaim, index, k, updated, reclaims);
    ListsStored(list, index, k);
    FlushedStored(index, k, slot, reclaim);
    ListsStored(updated, D.FlushIndex(index, slot, {}, {k}, outdated), k);
  }

  lemma UpdatedLists(list: seq<S.Item>, slot: Slot, reclaim: bool, index: D.Index, k: Pubkey, updated: seq<S.Item>,
                     reclaims: seq<S.Item>)
    requires Lists(list, index, k) && (k, slot) in index && index[(k, slot)].Cached? && S.Distinct(updated)
    requires var how := if reclaim then S.ReclaimOldSlots else S.IgnoreReclaims;
      && (forall item :: item in updated <==>
           item == S.Item(slot, false) || (item in list && S.Stays(item, slot, slot, how)))
      && (forall item :: item in reclaims <==> item in list && S.Reclaimed(item, slot, slot, how))
    ensures var outdated := D.Outdated(index, slot, {k}, reclaim);
      && Lists(updated, D.FlushIndex(index, slot, {}, {k}, outdated), k)
      && (forall item :: item in reclaims <==> !item.cached && (k, item.slot) in outdated)
  {
    var outdated := D.Outdated(index, slot, {k}, reclaim);
    var index' := D.FlushIndex(index, slot, {}, {k}, outdated);
    forall x: Slot, c: bool ensures S.Item(x, c) in updated <==> (k, x) in index' && index'[(k, x)].Cached? == c {
      assert S.Item(x, c) in list <==> (k, x) in index && index[(k, x)].Cached? == c;
    }
    forall item: S.Item ensures item in reclaims <==> !item.cached && (k, item.slot) in outdated {
      assert item == S.Item(item.slot, item.cached);
      assert S.Item(item.slot, item.cached) in list <==>
        (k, item.slot) in index && index[(k, item.slot)].Cached? == item.cached;
    }
  }
}
