/**
 The order in which storages are handed to worker threads: small and large ones interleaved, each exactly once.
 */
module StorageOrderer {
  import Arithmetic
  import Sets

  // ---------------------------------------------------------------- the interleaving

  /** The `nth` of `n` indices, taken alternately from the start and from the end of the range. */
  function Select(n: nat, nth: nat, startRate: nat, endRate: nat): int
    requires startRate + endRate > 0
  {
    var cycle := startRate + endRate;
    var cycleIndex, cycleNum := nth % cycle, nth / cycle;
    if cycleIndex < startRate then cycleNum * startRate + cycleIndex
    else n - (cycleNum * endRate + cycleIndex - startRate) - 1
  }

  predicate FromStart(nth: nat, startRate: nat, endRate: nat)
    requires startRate + endRate > 0
  {
    nth % (startRate + endRate) < startRate
  }

  /** How many of the first `k` come from the start. */
  ghost function Starts(k: nat, startRate: nat, endRate: nat): (count: nat)
    requires startRate + endRate > 0
    ensures count <= k
  {
    if k == 0 then 0
    else Starts(k - 1, startRate, endRate) + if FromStart(k - 1, startRate, endRate) then 1 else 0
  }

  lemma DivModUnique(m: nat, c: nat, r: nat, k: nat)
    requires r < m && k == m * c + r
    ensures k / m == c && k % m == r
  {
    var q, t := k / m, k % m;
    assert k == m * q + t;
    if q < c {
      Arithmetic.NextMultiple(m, q, c);
    } else if q > c {
      Arithmetic.NextMultiple(m, c, q);
    }
  }

  /** Whole cycles take `s` from the start each. */
  lemma {:induction false} StartsOfCycles(c: nat, r: nat, s: nat, e: nat, m: nat, k: nat)
    requires m == s + e && r < m && k == m * c + r
    ensures Starts(k, s, e) == s * c + if r < s then r else s
    decreases c, r
  {
    if r > 0 {
      StartsOfCycles(c, r - 1, s, e, m, k - 1);
      DivModUnique(m, c, r - 1, k - 1);
    } else if c > 0 {
      assert m * c == m * (c - 1) + m && s * c == s * (c - 1) + s;
      StartsOfCycles(c - 1, m - 1, s, e, m, k - 1);
      DivModUnique(m, c - 1, m - 1, k - 1);
    }
  }

  /** An index from the start is the number of earlier ones from the start; one from the end counts down by the
      number of earlier ones from the end. */
  lemma SelectCounts(n: nat, k: nat, s: nat, e: nat)
    requires s + e > 0
    ensures Select(n, k, s, e) == if FromStart(k, s, e) then Starts(k, s, e) else n - (k - Starts(k, s, e)) - 1
  {
    var m := s + e;
    var c, r := k / m, k % m;
    DivModOf(k, m);
    StartsOfCycles(c, r, s, e, m, k);
    Distribute(c, s, e);
  }

  lemma DivModOf(k: nat, m: nat)
    requires m > 0
    ensures k == m * (k / m) + k % m && k % m < m
  {}

  lemma Distribute(c: nat, s: nat, e: nat)
    ensures (s + e) * c == c * s + c * e && s * c == c * s
  {}

  lemma {:induction false} StartsGrow(j: nat, k: nat, s: nat, e: nat)
    requires s + e > 0 && j <= k
    ensures Starts(j, s, e) <= Starts(k, s, e) <= Starts(j, s, e) + (k - j)
    ensures j < k && FromStart(j, s, e) ==> Starts(j, s, e) < Starts(k, s, e)
    ensures j < k && !FromStart(j, s, e) ==> j - Starts(j, s, e) < k - Starts(k, s, e)
    decreases k - j
  {
    if j < k { StartsGrow(j, k - 1, s, e); }
  }

  lemma SelectInRange(n: nat, k: nat, s: nat, e: nat)
    requires s + e > 0 && k < n
    ensures 0 <= Select(n, k, s, e) < n
    ensures Select(n, k, s, e) < Starts(n, s, e) <==> FromStart(k, s, e)
  {
    SelectCounts(n, k, s, e);
    StartsGrow(k, n, s, e);
  }

  /** No index is selected twice. */
  lemma SelectIsInjective(n: nat, j: nat, k: nat, s: nat, e: nat)
    requires s + e > 0 && j < k < n
    ensures Select(n, j, s, e) != Select(n, k, s, e)
  {
    SelectInRange(n, j, s, e);
    SelectInRange(n, k, s, e);
    SelectCounts(n, j, s, e);
    SelectCounts(n, k, s, e);
    StartsGrow(j, k, s, e);
  }

  // ---------------------------------------------------------------- the orderer

  /** A permutation of `0..n`. */
  ghost predicate IsPermutation(indices: seq<nat>, n: nat) {
    && |indices| == n
    && (forall i :: 0 <= i < n ==> indices[i] < n)
    && (forall i, j :: 0 <= i < j < n ==> indices[i] != indices[j])
  }

  ghost function Below(n: nat): (s: set<nat>)
    ensures |s| == n && forall v :: v in s <==> 0 <= v < n
  {
    if n == 0 then {} else Below(n - 1) + {n - 1}
  }

  /** Every index is in a permutation. */
  lemma PermutationCovers(indices: seq<nat>, n: nat, v: nat)
    requires IsPermutation(indices, n) && v < n
    ensures v in indices
  {
    Sets.Pigeonhole(indices, Below(n));
    assert v in Below(n);
  }

  /** The indices sorted by capacity, each sent through the interleaving, are a permutation whatever the sort did. */
  method WithSmallToLargeRatio(sorted: seq<nat>, n: nat, startRate: nat, endRate: nat) returns (indices: seq<nat>)
    requires IsPermutation(sorted, n) && startRate + endRate > 0
    ensures IsPermutation(indices, n)
    ensures forall i :: 0 <= i < n ==> indices[i] == Select(n, sorted[i], startRate, endRate)
  {
    indices := [];
    for p := 0 to n
      invariant |indices| == p
      invariant forall i :: 0 <= i < p ==> indices[i] == Select(n, sorted[i], startRate, endRate)
    {
      SelectInRange(n, sorted[p], startRate, endRate);
      indices := indices + [Select(n, sorted[p], startRate, endRate)];
    }
    SelectedIsPermutation(indices, sorted, n, startRate, endRate);
  }

  lemma SelectedIsPermutation(indices: seq<nat>, sorted: seq<nat>, n: nat, s: nat, e: nat)
    requires s + e > 0 && IsPermutation(sorted, n) && |indices| == n
    requires forall i :: 0 <= i < n ==> indices[i] == Select(n, sorted[i], s, e)
    ensures IsPermutation(indices, n)
  {
    hide Select;
    forall i, j | 0 <= i < j < n ensures indices[i] != indices[j] {
      if sorted[i] < sorted[j] {
        SelectIsInjective(n, sorted[i], sorted[j], s, e);
      } else {
        SelectIsInjective(n, sorted[j], sorted[i], s, e);
      }
    }
    forall i | 0 <= i < n ensures indices[i] < n { SelectInRange(n, sorted[i], s, e); }
  }

  // ---------------------------------------------------------------- small before large

  /** The storages' indices by ascending capacity. */
  ghost predicate SortedBy(sorted: seq<nat>, capacities: seq<nat>) {
    && IsPermutation(sorted, |capacities|)
    && forall i, j :: 0 <= i < j < |sorted| ==> capacities[sorted[i]] <= capacities[sorted[j]]
  }

  /** The storage returned at each position has the capacity of the rank that the interleaving selects there. */
  ghost predicate Interleaves(indices: seq<nat>, sorted: seq<nat>, capacities: seq<nat>, startRate: nat, endRate: nat)
    requires startRate + endRate > 0
  {
    var n := |capacities|;
    && IsPermutation(indices, n) && IsPermutation(sorted, n)
    && forall p: nat | p < n :: var rank := Select(n, p, startRate, endRate);
         0 <= rank < n && capacities[indices[p]] == capacities[sorted[rank]]
  }

  /** The order the code computes: the selection is applied to the storages' indices, not to their ranks. */
  ghost predicate IsOrderOf(indices: seq<nat>, sorted: seq<nat>, capacities: seq<nat>, s: nat, e: nat)
    requires s + e > 0
  {
    && SortedBy(sorted, capacities) && IsPermutation(indices, |capacities|)
    && forall i :: 0 <= i < |capacities| ==> indices[i] == Select(|capacities|, sorted[i], s, e)
  }

  /** Whatever the capacities of the `n` storages, and however the sort breaks ties, they are interleaved. */
  ghost predicate AlwaysInterleaves(n: nat, s: nat, e: nat)
    requires s + e > 0
  {
    forall indices: seq<nat>, sorted: seq<nat>, capacities: seq<nat> |
      |capacities| == n && IsOrderOf(indices, sorted, capacities, s, e) ::
        Interleaves(indices, sorted, capacities, s, e)
  }

  /** Small and large storages are interleaved as documented, for all capacities, exactly when nothing is taken from the
      end, or only the last one is, or there are at most two. */
  lemma InterleavesExactly(n: nat, s: nat, e: nat)
    requires s + e > 0
    ensures AlwaysInterleaves(n, s, e) <==> e == 0 || n <= s + 1 || n <= 2
  {
    if e == 0 || n <= s + 1 || n <= 2 {
      forall indices: seq<nat>, sorted: seq<nat>, capacities: seq<nat> |
        |capacities| == n && IsOrderOf(indices, sorted, capacities, s, e)
        ensures Interleaves(indices, sorted, capacities, s, e)
      {
        FewInterleave(indices, sorted, capacities, s, e);
      }
    } else {
      var indices, sorted, capacities := OutOfOrder(n, s, e);
    }
  }

  lemma FewInterleave(indices: seq<nat>, sorted: seq<nat>, capacities: seq<nat>, s: nat, e: nat)
    requires s + e > 0 && IsOrderOf(indices, sorted, capacities, s, e)
    requires var n := |capacities|; e == 0 || n <= s + 1 || n <= 2
    ensures Interleaves(indices, sorted, capacities, s, e)
  {
    var n := |capacities|;
    forall p: nat | p < n
      ensures var rank := Select(n, p, s, e); 0 <= rank < n && capacities[indices[p]] == capacities[sorted[rank]]
    {
      SelectInRange(n, p, s, e);
      if e == 0 || n <= s + 1 {
        SelectsInOrder(n, p, s, e);
        SelectsInOrder(n, sorted[p], s, e);
      } else {
        TwoCommute(sorted, p, s, e);
      }
    }
  }

  lemma SelectsInOrder(n: nat, k: nat, s: nat, e: nat)
    requires s + e > 0 && k < n && (e == 0 || n <= s + 1)
    ensures Select(n, k, s, e) == k
  {
    if e == 0 {
      AllFromStart(n, k, s);
    } else {
      FirstCycle(n, k, s, e);
    }
  }

  lemma AllFromStart(n: nat, k: nat, s: nat)
    requires s > 0
    ensures Select(n, k, s, 0) == k
  {
    DivModOf(k, s);
  }

  lemma FirstCycle(n: nat, k: nat, s: nat, e: nat)
    requires e > 0 && k <= s
    ensures Select(n, k, s, e) == if k < s then k else n - 1
  {
    DivModUnique(s + e, 0, k, k);
  }

  /** Both orders of two storages go along with both selections of two. */
  lemma TwoCommute(sorted: seq<nat>, p: nat, s: nat, e: nat)
    requires s + e > 0 && IsPermutation(sorted, 2) && p < 2
    ensures var rank := Select(2, p, s, e); 0 <= rank < 2 && Select(2, sorted[p], s, e) == sorted[rank]
  {
    SelectInRange(2, 0, s, e);
    SelectInRange(2, 1, s, e);
    SelectIsInjective(2, 0, 1, s, e);
    assert sorted[0] != sorted[1];
  }

  /** Otherwise the largest storage is due at position `s`, and comes there only if it is the last one given. */
  lemma OutOfOrder(n: nat, s: nat, e: nat) returns (indices: seq<nat>, sorted: seq<nat>, capacities: seq<nat>)
    requires e > 0 && n > s + 1 && n > 2
    ensures |capacities| == n && IsOrderOf(indices, sorted, capacities, s, e)
    ensures !Interleaves(indices, sorted, capacities, s, e)
  {
    var z: nat := if s == 0 then 1 else 0;
    sorted := Swapped(n, z);
    capacities := sorted;
    indices := seq(n, i requires 0 <= i < n => InRange(n, sorted[i], s, e));
    SelectedIsPermutation(indices, sorted, n, s, e);
    FirstCycle(n, s, s, e);
    hide Select;
    assert capacities[indices[s]] != capacities[sorted[n - 1]];
  }

  ghost function InRange(n: nat, k: nat, s: nat, e: nat): (r: nat)
    requires s + e > 0 && k < n
    ensures r == Select(n, k, s, e) && r < n
  {
    SelectInRange(n, k, s, e);
    Select(n, k, s, e)
  }

  /** The last place exchanged with place `z`: its own inverse. */
  ghost function Swapped(n: nat, z: nat): (r: seq<nat>)
    requires z + 1 < n
    ensures IsPermutation(r, n) && r[z] == n - 1 && r[n - 1] == z && forall i :: 0 <= i < n && i != z && i != n - 1 ==>
      r[i] == i
    ensures SortedBy(r, r)
  {
    seq(n, i => if i == z then n - 1 else if i == n - 1 then z else i)
  }

  /** Storages that come sorted by capacity are interleaved as promised. */
  lemma SortedInterleaves(indices: seq<nat>, sorted: seq<nat>, capacities: seq<nat>, s: nat, e: nat)
    requires s + e > 0 && IsOrderOf(indices, sorted, capacities, s, e)
    requires forall i, j :: 0 <= i < j < |capacities| ==> capacities[i] < capacities[j]
    ensures Interleaves(indices, sorted, capacities, s, e)
  {
    var n := |capacities|;
    forall i: nat | i < n ensures sorted[i] == i { SortedIsIdentity(sorted, capacities, i); }
    forall p: nat | p < n
      ensures var rank := Select(n, p, s, e); 0 <= rank < n && capacities[indices[p]] == capacities[sorted[rank]]
    {
      SelectInRange(n, p, s, e);
    }
  }

  lemma {:induction false} SortedIsIdentity(sorted: seq<nat>, capacities: seq<nat>, i: nat)
    requires SortedBy(sorted, capacities) && i < |capacities|
    requires forall i, j :: 0 <= i < j < |capacities| ==> capacities[i] < capacities[j]
    ensures sorted[i] == i
  {
    PermutationCovers(sorted, |capacities|, i);
    var j :| 0 <= j < |sorted| && sorted[j] == i;
    if j < i {
      SortedIsIdentity(sorted, capacities, j);
      assert false;
    } else if j > i {
      SortedIsIdentity(sorted, capacities, sorted[i]);
      assert false;
    }
  }

  /** Capacities 3, 1, 2 at one small for one large: the storage of capacity 2 comes first. */
  lemma MayNotInterleave() returns (indices: seq<nat>, sorted: seq<nat>, capacities: seq<nat>)
    ensures IsOrderOf(indices, sorted, capacities, 1, 1) && !Interleaves(indices, sorted, capacities, 1, 1)
  {
    capacities, sorted := [3, 1, 2], [1, 2, 0];
    indices := [2, 1, 0];
    assert Select(3, 0, 1, 1) == 0 && Select(3, 1, 1, 1) == 2 && Select(3, 2, 1, 1) == 1;
    assert capacities[indices[0]] == 2 && capacities[sorted[0]] == 1;
  }

  // ---------------------------------------------------------------- the concurrent consumer

  datatype Next = Item(position: nat, original: nat) | End

  class Consumer {
    const indices: seq<nat>
    var position: nat
    ghost var given: seq<Next>  // what the calls have returned, in the order of their increments

    ghost predicate Valid()
      reads this
    {
      && IsPermutation(indices, |indices|) && |given| == position
      && forall k :: 0 <= k < position ==> given[k] == if k < |indices| then Item(k, indices[k]) else End
    }

    constructor (indices: seq<nat>)
      requires IsPermutation(indices, |indices|)
      ensures Valid() && this.indices == indices && given == []
    {
      this.indices := indices;
      position, given := 0, [];
    }

    /** One call, by any thread: an atomic increment decides which storage it gets. */
    method TakeNext() returns (next: Next)
      requires Valid()
      modifies this
      ensures Valid() && given == old(given) + [next]
    {
      var p := position;
      position := position + 1;
      next := if p < |indices| then Item(p, indices[p]) else End;
      given := given + [next];
    }
  }

  /** Whichever threads made the calls, each storage went to exactly one of them. */
  lemma EachStorageOnce(indices: seq<nat>, given: seq<Next>, v: nat)
    requires IsPermutation(indices, |indices|) && v < |indices| <= |given|
    requires forall k :: 0 <= k < |given| ==> given[k] == if k < |indices| then Item(k, indices[k]) else End
    ensures exists k :: 0 <= k < |given| && given[k].Item? && given[k].original == v
    ensures forall k, l :: 0 <= k < l < |given| && given[k].Item? && given[l].Item? ==>
      given[k].original != given[l].original
  {
    PermutationCovers(indices, |indices|, v);
    var k :| 0 <= k < |indices| && indices[k] == v;
    assert given[k].Item? && given[k].original == v;
  }
}
