/**
 The slot list of one index entry: replacing and reclaiming versions, and finding the newest visible one.
 */
module SlotList {
  import opened Types

  datatype Item = Item(slot: Slot, cached: bool)

  /** How an upsert treats the versions it replaces. */
  datatype Reclaim = PopulateReclaims | IgnoreReclaims | ReclaimOldSlots | PreviousSlotEntryWasCached

  ghost predicate Distinct(list: seq<Item>) {
    forall i, j :: 0 <= i < j < |list| ==> list[i].slot != list[j].slot
  }

  predicate HasSlot(list: seq<Item>, slot: Slot) {
    exists i :: 0 <= i < |list| && list[i].slot == slot
  }

  /** How many versions are in storages. */
  function StoredCount(list: seq<Item>): nat {
    if list == [] then 0 else StoredCount(list[..|list| - 1]) + if list[|list| - 1].cached then 0 else 1
  }

  lemma StoredCountAppend(list: seq<Item>, item: Item)
    ensures StoredCount(list + [item]) == StoredCount(list) + if item.cached then 0 else 1
  {
    assert (list + [item])[..|list|] == list;
  }

  // ---------------------------------------------------------------- upsert

  predicate Outdated(item: Item, slot: Slot, replaced: Slot, reclaim: Reclaim) {
    reclaim.ReclaimOldSlots? && item.slot != replaced && !item.cached && item.slot < slot
  }

  predicate Stays(item: Item, slot: Slot, replaced: Slot, reclaim: Reclaim) {
    item.slot != replaced && !Outdated(item, slot, replaced, reclaim)
  }

  predicate Reclaimed(item: Item, slot: Slot, replaced: Slot, reclaim: Reclaim) {
    && !item.cached
    && (Outdated(item, slot, replaced, reclaim) ||
         (item.slot == replaced && (reclaim.PopulateReclaims? || reclaim.ReclaimOldSlots?)))
  }

  /** The list with the version at `replaced` replaced and the outdated ones gone. */
  function Replace(list: seq<Item>, slot: Slot, replaced: Slot, reclaim: Reclaim): seq<Item> {
    if list == [] then []
    else
      var item, rest := list[|list| - 1], Replace(list[..|list| - 1], slot, replaced, reclaim);
      if item.slot == replaced then rest + [Item(slot, false)]
      else if Outdated(item, slot, replaced, reclaim) then rest
      else rest + [item]
  }

  function Reclaims(list: seq<Item>, slot: Slot, replaced: Slot, reclaim: Reclaim): seq<Item> {
    if list == [] then []
    else
      var item, rest := list[|list| - 1], Reclaims(list[..|list| - 1], slot, replaced, reclaim);
      if Reclaimed(item, slot, replaced, reclaim) then rest + [item] else rest
  }

  lemma {:induction false} ReplaceMembers(list: seq<Item>, slot: Slot, replaced: Slot, reclaim: Reclaim, item: Item)
    ensures item in Replace(list, slot, replaced, reclaim) <==>
      || (item == Item(slot, false) && HasSlot(list, replaced))
      || (item in list && Stays(item, slot, replaced, reclaim))
  {
    if list != [] {
      var front, last := list[..|list| - 1], list[|list| - 1];
      ReplaceMembers(front, slot, replaced, reclaim, item);
      assert list == front + [last];
      assert HasSlot(list, replaced) <==> HasSlot(front, replaced) || last.slot == replaced;
    }
  }

  lemma {:induction false} ReclaimsMembers(list: seq<Item>, slot: Slot, replaced: Slot, reclaim: Reclaim, item: Item)
    ensures item in Reclaims(list, slot, replaced, reclaim) <==>
      item in list && Reclaimed(item, slot, replaced, reclaim)
  {
    if list != [] {
      ReclaimsMembers(list[..|list| - 1], slot, replaced, reclaim, item);
      assert list == list[..|list| - 1] + [list[|list| - 1]];
    }
  }

  lemma {:induction false} ReplaceDistinct(list: seq<Item>, slot: Slot, replaced: Slot, reclaim: Reclaim)
    requires Distinct(list) && (replaced != slot ==> !HasSlot(list, slot))
    ensures Distinct(Replace(list, slot, replaced, reclaim))
    ensures !HasSlot(list, replaced) ==> !HasSlot(Replace(list, slot, replaced, reclaim), slot)
  {
    if list != [] {
      var front, last := list[..|list| - 1], list[|list| - 1];
      ReplaceDistinct(front, slot, replaced, reclaim);
      var rest := Replace(front, slot, replaced, reclaim);
      forall k | 0 <= k < |rest| ensures rest[k].slot == slot || (rest[k].slot != last.slot && rest[k] in front) {
        ReplaceMembers(front, slot, replaced, reclaim, rest[k]);
      }
      assert HasSlot(front, replaced) ==> HasSlot(list, replaced);
      assert last.slot == replaced ==> !HasSlot(front, replaced);
      assert last.slot == slot ==> HasSlot(list, slot);
    }
  }

  /** Stored versions that are replaced or reclaimed. */
  function Lost(list: seq<Item>, slot: Slot, replaced: Slot, reclaim: Reclaim): nat {
    if list == [] then 0
    else
      Lost(list[..|list| - 1], slot, replaced, reclaim) +
      if list[|list| - 1].cached || Stays(list[|list| - 1], slot, replaced, reclaim) then 0 else 1
  }

  lemma {:induction false} ReplaceCount(list: seq<Item>, slot: Slot, replaced: Slot, reclaim: Reclaim)
    requires Distinct(list)
    ensures StoredCount(Replace(list, slot, replaced, reclaim)) ==
      StoredCount(list) - Lost(list, slot, replaced, reclaim) + if HasSlot(list, replaced) then 1 else 0
  {
    if list == [] {
      assert !HasSlot(list, replaced);
    } else {
      hide HasSlot;
      var front, last := list[..|list| - 1], list[|list| - 1];
      ReplaceCount(front, slot, replaced, reclaim);
      StoredCountAppend(Replace(front, slot, replaced, reclaim), last);
      StoredCountAppend(Replace(front, slot, replaced, reclaim), Item(slot, false));
      assert list[..|front| + 1] == list;
      HasSlotNext(list, |front|, replaced);
    }
  }

  /** The updated list, with the new version at its end if nothing was replaced. */
  function Updated(list: seq<Item>, slot: Slot, replaced: Slot, reclaim: Reclaim): seq<Item> {
    Replace(list, slot, replaced, reclaim) + if HasSlot(list, replaced) then [] else [Item(slot, false)]
  }

  lemma UpdatedList(list: seq<Item>, slot: Slot, replaced: Slot, reclaim: Reclaim)
    requires Distinct(list) && (replaced != slot ==> !HasSlot(list, slot))
    ensures Distinct(Updated(list, slot, replaced, reclaim))
    ensures StoredCount(Updated(list, slot, replaced, reclaim)) ==
      StoredCount(list) + 1 - Lost(list, slot, replaced, reclaim)
    ensures forall item :: item in Updated(list, slot, replaced, reclaim) <==>
      item == Item(slot, false) || (item in list && Stays(item, slot, replaced, reclaim))
  {
    var rest := Replace(list, slot, replaced, reclaim);
    ReplaceDistinct(list, slot, replaced, reclaim);
    ReplaceCount(list, slot, replaced, reclaim);
    StoredCountAppend(rest, Item(slot, false));
    assert rest + [] == rest;
    forall item ensures item in rest <==>
      (item == Item(slot, false) && HasSlot(list, replaced)) || (item in list && Stays(item, slot, replaced, reclaim))
    {
      ReplaceMembers(list, slot, replaced, reclaim, item);
    }
  }

  /** Puts the stored version of `slot` into the list, in place of the version at `otherSlot` or at `slot`.
      The change of the reference count is the change of the number of stored versions. */
  method UpdateSlotList(list: seq<Item>, slot: Slot, otherSlot: Option<Slot>, reclaim: Reclaim)
    returns (updated: seq<Item>, reclaims: seq<Item>, refCountChange: int)
    requires Distinct(list)
    requires otherSlot.Some? && otherSlot.value != slot ==> !HasSlot(list, slot)
    requires reclaim.PreviousSlotEntryWasCached? ==>
      forall item | item in list && item.slot == (if otherSlot.Some? then otherSlot.value else slot) :: item.cached
    ensures Distinct(updated)
    ensures refCountChange == StoredCount(updated) - StoredCount(list)
    ensures var replaced := if otherSlot.Some? then otherSlot.value else slot;
      && (forall item :: item in updated <==>
           item == Item(slot, false) || (item in list && Stays(item, slot, replaced, reclaim)))
      && (forall item :: item in reclaims <==> item in list && Reclaimed(item, slot, replaced, reclaim))
  {
    hide Distinct, StoredCount;
    var replaced := if otherSlot.Some? then otherSlot.value else slot;
    updated, reclaims, refCountChange := [], [], 1;
    var found := false;
    var i := 0;
    while i < |list|
      invariant 0 <= i <= |list|
      invariant found <==> HasSlot(list[..i], replaced)
      invariant updated == Replace(list[..i], slot, replaced, reclaim)
      invariant reclaims == Reclaims(list[..i], slot, replaced, reclaim)
      invariant refCountChange == 1 - Lost(list[..i], slot, replaced, reclaim)
    {
      var item := list[i];
      assert list[..i + 1][..i] == list[..i] && list[..i + 1][i] == item;
      HasSlotNext(list, i, replaced);
      if item.slot == replaced {
        match reclaim {
          case ReclaimOldSlots | PopulateReclaims => if !item.cached { reclaims := reclaims + [item]; }
          case PreviousSlotEntryWasCached => assert item.cached;
          case IgnoreReclaims =>
        }
        if !item.cached { refCountChange := refCountChange - 1; }
        found := true;
        updated := updated + [Item(slot, false)];
      } else if Outdated(item, slot, replaced, reclaim) {
        reclaims := reclaims + [item];
        refCountChange := refCountChange - 1;
      } else {
        updated := updated + [item];
      }
      i := i + 1;
    }
    assert list[..i] == list;
    assert updated + [] == updated;
    if !found { updated := updated + [Item(slot, false)]; }
    assert updated == Updated(list, slot, replaced, reclaim);
    UpdatedList(list, slot, replaced, reclaim);
    forall item ensures item in reclaims <==> item in list && Reclaimed(item, slot, replaced, reclaim) {
      ReclaimsMembers(list, slot, replaced, reclaim, item);
    }
  }

  lemma HasSlotNext(list: seq<Item>, i: nat, slot: Slot)
    requires Distinct(list) && i < |list|
    ensures HasSlot(list[..i + 1], slot) <==> HasSlot(list[..i], slot) || list[i].slot == slot
    ensures list[i].slot == slot ==> !HasSlot(list[..i], slot)
  {
    assert list[..i + 1] == list[..i] + [list[i]];
    if list[i].slot == slot { assert list[..i + 1][i].slot == slot; }
    if HasSlot(list[..i], slot) {
      var j :| 0 <= j < i && list[j].slot == slot;
      assert list[..i + 1][j].slot == slot;
    }
  }

  // ---------------------------------------------------------------- the newest visible version

  predicate Visible(slot: Slot, ancestors: Option<set<Slot>>, roots: set<Slot>, maxRoot: Option<Slot>) {
    || (ancestors.Some? && slot in ancestors.value)
    || (slot in roots && (maxRoot.Some? ==> slot <= maxRoot.value))
  }

  /** Finds the newest version on the fork: the list is scanned from its end, once for ancestors and once for roots. */
  method LatestSlot(list: seq<Item>, ancestors: Option<set<Slot>>, roots: set<Slot>, maxRoot: Option<Slot>)
    returns (found: Option<nat>)
    ensures found.None? <==> forall i :: 0 <= i < |list| ==> !Visible(list[i].slot, ancestors, roots, maxRoot)
    ensures found.Some? ==>
      && found.value < |list| && Visible(list[found.value].slot, ancestors, roots, maxRoot)
      && forall i :: 0 <= i < |list| && Visible(list[i].slot, ancestors, roots, maxRoot) ==>
           list[i].slot <= list[found.value].slot
  {
    var n := |list|;
    var currentMax: Slot := 0;
    var rv: Option<nat> := None;
    if ancestors.Some? {
      var i := 0;
      while i < n
        invariant 0 <= i <= n
        invariant rv.Some? ==>
          rv.value < i && currentMax == list[n - 1 - rv.value].slot && currentMax in ancestors.value
        invariant forall j :: n - i <= j < n && list[j].slot in ancestors.value ==>
          rv.Some? && list[j].slot <= currentMax
      {
        var slot := list[n - 1 - i].slot;
        if (rv.None? || slot > currentMax) && slot in ancestors.value {
          rv, currentMax := Some(i), slot;
        }
        i := i + 1;
      }
    }
    var i := 0;
    while i < n
      invariant 0 <= i <= n
      invariant rv.Some? ==>
        rv.value < n && currentMax == list[n - 1 - rv.value].slot && Visible(currentMax, ancestors, roots, maxRoot)
      invariant ancestors.Some? ==>
        forall j :: 0 <= j < n && list[j].slot in ancestors.value ==> rv.Some? && list[j].slot <= currentMax
      invariant forall j :: n - i <= j < n && Visible(list[j].slot, ancestors, roots, maxRoot) ==>
        rv.Some? && list[j].slot <= currentMax
    {
      var slot := list[n - 1 - i].slot;
      if (rv.None? || slot > currentMax) && (maxRoot.Some? ==> slot <= maxRoot.value) {
        if slot in roots {
          rv, currentMax := Some(i), slot;
        }
      }
      i := i + 1;
    }
    found := if rv.Some? then Some(n - 1 - rv.value) else None;
  }
}
