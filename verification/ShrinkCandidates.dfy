/**
 Choosing which storages to shrink: the sparsest first, until the overall alive ratio is above the target.
 */
module ShrinkCandidates {
  import opened Types

  /** A candidate storage: its alive bytes and its capacity. */
  datatype Usage = Usage(slot: Slot, alive: nat, capacity: nat)

  function Ratio(alive: nat, total: nat): real {
    if total == 0 then 0.0 else alive as real / total as real
  }

  function UsageRatio(u: Usage): real { Ratio(u.alive, u.capacity) }

  lemma RatioAbove(alive: nat, total: nat, target: real)
    requires total > 0
    ensures Ratio(alive, total) > target <==> alive as real > target * total as real
    ensures Ratio(alive, total) < target <==> (alive as real) < target * total as real
  {
    var r := Ratio(alive, total);
    assert r * total as real == alive as real;
    if r > target { Scale(target, r, total as real); }
    if r < target { Scale(r, target, total as real); }
  }

  lemma Scale(a: real, b: real, c: real)
    requires a < b && c > 0.0
    ensures a * c < b * c
  {}

  /** Sparser: the share of alive bytes is smaller. */
  lemma Sparser(a: Usage, b: Usage)
    requires a.capacity > 0 && b.capacity > 0 && UsageRatio(a) <= UsageRatio(b)
    ensures a.alive * b.capacity <= b.alive * a.capacity
  {
    var r := UsageRatio(b);
    RatioAbove(a.alive, a.capacity, r);
    assert r * b.capacity as real == b.alive as real;
    assert a.alive as real <= r * a.capacity as real;
    ScaleAll(a.alive as real, r * a.capacity as real, b.capacity as real);
    assert r * a.capacity as real * b.capacity as real == (r * b.capacity as real) * a.capacity as real;
    assert (a.alive * b.capacity) as real == a.alive as real * b.capacity as real;
    assert (b.alive * a.capacity) as real == b.alive as real * a.capacity as real;
  }

  lemma ScaleAll(a: real, b: real, c: real)
    requires a <= b && c > 0.0
    ensures a * c <= b * c
  {}

  // ---------------------------------------------------------------- sparseness order

  ghost predicate Sorted(s: seq<Usage>) {
    forall i, j :: 0 <= i < j < |s| ==> UsageRatio(s[i]) <= UsageRatio(s[j])
  }

  function Insert(s: seq<Usage>, u: Usage): seq<Usage> {
    if s == [] || UsageRatio(s[|s| - 1]) <= UsageRatio(u) then s + [u]
    else Insert(s[..|s| - 1], u) + [s[|s| - 1]]
  }

  function SortByRatio(s: seq<Usage>): seq<Usage> {
    if s == [] then [] else Insert(SortByRatio(s[..|s| - 1]), s[|s| - 1])
  }

  lemma {:induction false} InsertMembers(s: seq<Usage>, u: Usage)
    ensures multiset(Insert(s, u)) == multiset(s) + multiset{u}
  {
    if s != [] && UsageRatio(s[|s| - 1]) > UsageRatio(u) {
      InsertMembers(s[..|s| - 1], u);
      assert s == s[..|s| - 1] + [s[|s| - 1]];
    }
  }

  lemma {:induction false} InsertSorted(s: seq<Usage>, u: Usage)
    requires Sorted(s)
    ensures Sorted(Insert(s, u))
  {
    if s != [] && UsageRatio(s[|s| - 1]) > UsageRatio(u) {
      var front, last := s[..|s| - 1], s[|s| - 1];
      InsertSorted(front, u);
      InsertMembers(front, u);
      var rest := Insert(front, u);
      forall i | 0 <= i < |rest| ensures UsageRatio(rest[i]) <= UsageRatio(last) {
        assert rest[i] in multiset(rest);
        assert rest[i] == u || rest[i] in multiset(front);
      }
    }
  }

  lemma {:induction false} SortIsSorted(s: seq<Usage>)
    ensures Sorted(SortByRatio(s)) && multiset(SortByRatio(s)) == multiset(s)
  {
    if s != [] {
      SortIsSorted(s[..|s| - 1]);
      InsertSorted(SortByRatio(s[..|s| - 1]), s[|s| - 1]);
      InsertMembers(SortByRatio(s[..|s| - 1]), s[|s| - 1]);
      assert s == s[..|s| - 1] + [s[|s| - 1]];
    }
  }

  // ---------------------------------------------------------------- the selection

  function Saved(u: Usage): nat { if u.capacity > u.alive then u.capacity - u.alive else 0 }

  function TotalAlive(s: seq<Usage>): nat {
    if s == [] then 0 else TotalAlive(s[..|s| - 1]) + s[|s| - 1].alive
  }

  function TotalCapacity(s: seq<Usage>): nat {
    if s == [] then 0 else TotalCapacity(s[..|s| - 1]) + s[|s| - 1].capacity
  }

  function TotalSaved(s: seq<Usage>): nat {
    if s == [] then 0 else TotalSaved(s[..|s| - 1]) + Saved(s[|s| - 1])
  }

  /** The totals are sums over the storages. */
  lemma TotalsOfOne(u: Usage)
    ensures TotalAlive([u]) == u.alive && TotalCapacity([u]) == u.capacity
    ensures u.alive <= u.capacity ==> TotalSaved([u]) == u.capacity - u.alive
    ensures u.alive > u.capacity ==> TotalSaved([u]) == 0
  {
    assert [u][..0] == [];
  }

  lemma {:induction false} TotalsAdd(a: seq<Usage>, b: seq<Usage>)
    ensures TotalAlive(a + b) == TotalAlive(a) + TotalAlive(b)
    ensures TotalCapacity(a + b) == TotalCapacity(a) + TotalCapacity(b)
    ensures TotalSaved(a + b) == TotalSaved(a) + TotalSaved(b)
    decreases |b|
  {
    if b == [] {
      assert a + b == a;
    } else {
      TotalsAdd(a, b[..|b| - 1]);
      assert (a + b)[..|a + b| - 1] == a + b[..|b| - 1];
    }
  }

  /** The overall ratio once the first `k` storages are shrunk is above the target. */
  ghost predicate Reached(s: seq<Usage>, k: nat, target: real)
    requires k <= |s|
  {
    TotalCapacity(s) - TotalSaved(s[..k]) > 0 &&
    Ratio(TotalAlive(s), TotalCapacity(s) - TotalSaved(s[..k])) > target
  }

  lemma {:induction false} SavedIsBounded(s: seq<Usage>, k: nat)
    requires k <= |s| && forall i :: 0 <= i < |s| ==> s[i].capacity > 0
    ensures TotalSaved(s[..k]) <= TotalCapacity(s)
    ensures k < |s| ==> TotalCapacity(s) - TotalSaved(s[..k]) >= s[k].capacity
    decreases |s|
  {
    if s != [] {
      var front := s[..|s| - 1];
      assert forall i :: 0 <= i < |front| ==> front[i].capacity > 0;
      if k == |s| {
        SavedIsBounded(front, |front|);
        assert front[..|front|] == front && s[..k] == s;
      } else {
        SavedIsBounded(front, k);
        assert front[..k] == s[..k];
      }
    }
  }

  predicate BelowTarget(u: Usage, target: real) { (u.alive as real) < target * u.capacity as real }

  /** Shrinking the first `k` storages, and no fewer, brings the share of alive bytes above the target. */
  ghost predicate IsShortest(s: seq<Usage>, k: nat, target: real)
    requires k <= |s|
  {
    && (forall i :: 0 <= i < k ==>
          TotalAlive(s) as real <= target * (TotalCapacity(s) - TotalSaved(s[..i])) as real)
    && (k < |s| ==> TotalAlive(s) as real > target * (TotalCapacity(s) - TotalSaved(s[..k])) as real)
  }

  lemma GoalAt(s: seq<Usage>, i: nat, target: real)
    requires i < |s| && forall j :: 0 <= j < |s| ==> s[j].capacity > 0
    ensures Reached(s, i, target) <==>
      TotalAlive(s) as real > target * (TotalCapacity(s) - TotalSaved(s[..i])) as real
  {
    hide Ratio, TotalAlive, TotalCapacity, TotalSaved;
    SavedIsBounded(s, i);
    RatioAbove(TotalAlive(s), TotalCapacity(s) - TotalSaved(s[..i]), target);
  }

  lemma ReachedShortest(s: seq<Usage>, k: nat, target: real)
    requires k <= |s| && forall i :: 0 <= i < |s| ==> s[i].capacity > 0
    requires (forall i :: 0 <= i < k ==> !Reached(s, i, target)) && (k < |s| ==> Reached(s, k, target))
    ensures IsShortest(s, k, target)
  {
    hide Reached, TotalAlive, TotalCapacity, TotalSaved;
    forall i | 0 <= i < k
      ensures TotalAlive(s) as real <= target * (TotalCapacity(s) - TotalSaved(s[..i])) as real
    {
      GoalAt(s, i, target);
    }
    if k < |s| { GoalAt(s, k, target); }
  }

  lemma AreBelowTarget(s: seq<Usage>, k: nat, target: real, deferred: set<Slot>)
    requires k <= |s| && forall i :: 0 <= i < |s| ==> s[i].capacity > 0
    requires deferred == set i | k <= i < |s| && UsageRatio(s[i]) < target :: s[i].slot
    ensures forall x :: x in deferred <==>
      exists i :: k <= i < |s| && s[i].slot == x && BelowTarget(s[i], target)
  {
    hide Ratio;
    forall i | 0 <= i < |s|
      ensures UsageRatio(s[i]) < target <==> BelowTarget(s[i], target)
    {
      RatioAbove(s[i].alive, s[i].capacity, target);
    }
  }

  /** The storages in sparseness order are worked through until the goal is reached. */
  method SelectFromSorted(s: seq<Usage>, target: real) returns (k: nat, deferred: set<Slot>)
    requires Sorted(s) && forall i :: 0 <= i < |s| ==> s[i].capacity > 0
    ensures k <= |s| && IsShortest(s, k, target)
    ensures forall x :: x in deferred <==>
      exists i :: k <= i < |s| && s[i].slot == x && BelowTarget(s[i], target)
  {
    hide Ratio, Reached, Sorted;
    k, deferred := WorkThrough(s, target);
    ReachedShortest(s, k, target);
    AreBelowTarget(s, k, target, deferred);
  }

  /** The loop over the storages in sparseness order. */
  method WorkThrough(s: seq<Usage>, target: real) returns (k: nat, deferred: set<Slot>)
    requires Sorted(s) && forall i :: 0 <= i < |s| ==> s[i].capacity > 0
    ensures k <= |s|
    ensures forall i :: 0 <= i < k ==> !Reached(s, i, target)
    ensures k < |s| ==> Reached(s, k, target)
    ensures deferred == set i | k <= i < |s| && UsageRatio(s[i]) < target :: s[i].slot
  {
    var totalAlive, totalBytes := TotalAlive(s), TotalCapacity(s);
    k, deferred := 0, {};
    var i := 0;
    while i < |s|
      invariant 0 <= k <= i <= |s|
      invariant totalBytes == TotalCapacity(s) - TotalSaved(s[..k])
      invariant forall j :: 0 <= j < k ==> !Reached(s, j, target)
      invariant k < i ==> Reached(s, k, target)
      invariant deferred == set j | k <= j < i && UsageRatio(s[j]) < target :: s[j].slot
    {
      SavedIsBounded(s, k);
      assert k < |s| ==> totalBytes > 0;
      if Ratio(totalAlive, totalBytes) > target {
        if UsageRatio(s[i]) < target {
          deferred := deferred + {s[i].slot};
        } else {
          forall j | i <= j < |s| ensures UsageRatio(s[j]) >= target {
            assert UsageRatio(s[i]) <= UsageRatio(s[j]);
          }
          return;
        }
      } else {
        assert s[..k + 1][..k] == s[..k];
        totalBytes := totalBytes - Saved(s[i]);
        k := k + 1;
      }
      i := i + 1;
    }
  }

  /** The storages of the candidate slots that still have one. */
  ghost predicate IsUsageOf(s: seq<Usage>, slots: set<Slot>, storages: map<Slot, Usage>) {
    && (forall u | u in s :: u.slot in slots && u.slot in storages && storages[u.slot] == u)
    && (forall x | x in slots && x in storages :: storages[x] in s)
    && (forall i, j :: 0 <= i < j < |s| ==> s[i].slot != s[j].slot)
  }

  method CollectUsage(slots: set<Slot>, storages: map<Slot, Usage>) returns (s: seq<Usage>)
    requires forall x | x in storages :: storages[x].slot == x
    ensures IsUsageOf(s, slots, storages)
  {
    s := [];
    var todo := slots;
    while todo != {}
      invariant todo <= slots && IsUsageOf(s, slots - todo, storages)
      decreases todo
    {
      var x :| x in todo;
      todo := todo - {x};
      if x in storages { s := s + [storages[x]]; }
    }
    assert slots - {} == slots;
  }

  /** In some order of the storages by sparseness, `selected` is the shortest run that brings the overall ratio above
      the target, and the others that are below the target are left for later. */
  ghost predicate IsSelection(slots: set<Slot>, storages: map<Slot, Usage>, target: real, selected: seq<Usage>,
                              deferred: set<Slot>)
    requires forall x | x in storages :: storages[x].capacity > 0
  {
    exists order: seq<Usage> :: IsUsageOf(order, slots, storages) && Selects(order, target, selected, deferred)
  }

  ghost predicate Selects(order: seq<Usage>, target: real, selected: seq<Usage>, deferred: set<Slot>)
    requires forall u | u in order :: u.capacity > 0
  {
    && selected <= order
    && (forall i, j :: 0 <= i < j < |order| ==>
         order[i].alive * order[j].capacity <= order[j].alive * order[i].capacity)
    && IsShortest(order, |selected|, target)
    && forall x :: x in deferred <==>
         exists i :: |selected| <= i < |order| && order[i].slot == x && BelowTarget(order[i], target)
  }

  lemma SparsestFirst(s: seq<Usage>)
    requires Sorted(s) && forall i :: 0 <= i < |s| ==> s[i].capacity > 0
    ensures forall i, j :: 0 <= i < j < |s| ==> s[i].alive * s[j].capacity <= s[j].alive * s[i].capacity
  {
    hide UsageRatio;
    forall i, j | 0 <= i < j < |s| ensures s[i].alive * s[j].capacity <= s[j].alive * s[i].capacity {
      Sparser(s[i], s[j]);
    }
  }

  lemma SameUsage(a: seq<Usage>, b: seq<Usage>, slots: set<Slot>, storages: map<Slot, Usage>)
    requires IsUsageOf(a, slots, storages) && multiset(a) == multiset(b)
    ensures IsUsageOf(b, slots, storages)
  {
    forall u ensures u in a <==> u in b { assert u in multiset(a) <==> u in multiset(b); }
    forall i, j | 0 <= i < j < |b| ensures b[i].slot != b[j].slot {
      if b[i].slot == b[j].slot {
        assert b[i] == b[j];
        Twice(b, i, j);
        Once(a, b[i]);
      }
    }
  }

  lemma Twice(s: seq<Usage>, i: nat, j: nat)
    requires i < j < |s| && s[i] == s[j]
    ensures multiset(s)[s[i]] >= 2
  {
    assert s == s[..i] + [s[i]] + s[i + 1..j] + [s[j]] + s[j + 1..];
  }

  lemma {:induction false} Once(s: seq<Usage>, u: Usage)
    requires forall i, j :: 0 <= i < j < |s| ==> s[i].slot != s[j].slot
    ensures multiset(s)[u] <= 1
  {
    if s != [] {
      var front, last := s[..|s| - 1], s[|s| - 1];
      Once(front, u);
      assert s == front + [last];
      assert last !in front;
    }
  }

  /** The storages to shrink now and those to consider again. */
  method SelectCandidates(slots: set<Slot>, storages: map<Slot, Usage>, target: real)
    returns (selected: seq<Usage>, deferred: set<Slot>)
    requires forall x | x in storages :: storages[x].slot == x && storages[x].capacity > 0
    ensures IsSelection(slots, storages, target, selected, deferred)
  {
    hide IsShortest, Ratio, Sorted, BelowTarget, SortByRatio;
    var usage := CollectUsage(slots, storages);
    var sorted := SortByRatio(usage);
    SortIsSorted(usage);
    SameUsage(usage, sorted, slots, storages);
    var k: nat;
    k, deferred := SelectFromSorted(sorted, target);
    selected := sorted[..k];
    SparsestFirst(sorted);
    assert Selects(sorted, target, selected, deferred);
  }
}
