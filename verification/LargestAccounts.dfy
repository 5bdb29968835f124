/**
 The largest accounts: a scan in any order through a heap that never holds more than `num` entries.
 */
module LargestAccounts {
  import opened Types
  import Sets

  datatype Balance = Balance(lamports: nat, key: Pubkey)
  datatype Filter = Exclude | Include

  /** By lamports, then by key. */
  predicate Less(a: Balance, b: Balance) {
    a.lamports < b.lamports || (a.lamports == b.lamports && a.key < b.key)
  }

  predicate Collects(b: Balance, addresses: set<Pubkey>, filter: Filter) {
    b.lamports != 0 && (if filter.Exclude? then b.key !in addresses else b.key in addresses)
  }

  // ---------------------------------------------------------------- specification

  /** The accounts of the scan that pass the filter. */
  function Collected(scan: seq<Balance>, addresses: set<Pubkey>, filter: Filter): set<Balance> {
    set b | b in scan && Collects(b, addresses, filter)
  }

  /** `top` are the `num` largest of `all`, or all of them. */
  ghost predicate IsTop(all: set<Balance>, num: nat, top: set<Balance>) {
    && top <= all && |top| == (if |all| < num then |all| else num)
    && forall a, b | a in all && a !in top && b in top :: Less(a, b)
  }

  function Elements(s: seq<Balance>): (r: set<Balance>)
    ensures forall x :: x in r <==> x in s
  {
    set x | x in s
  }

  ghost predicate Descending(s: seq<Balance>) {
    forall i, j :: 0 <= i < j < |s| ==> Less(s[j], s[i])
  }

  /** The top is unique, so no order of the scan changes the result. */
  lemma TopIsUnique(all: set<Balance>, num: nat, a: set<Balance>, b: set<Balance>)
    requires IsTop(all, num, a) && IsTop(all, num, b)
    ensures a == b
  {
    if a <= b {
      Sets.SameSize(a, b);
    } else if b <= a {
      Sets.SameSize(b, a);
    } else {
      var x :| x in a && x !in b;
      var y :| y in b && y !in a;
      assert false;
    }
  }

  lemma SameSeq(a: seq<Balance>, b: seq<Balance>)
    requires Descending(a) && Descending(b) && forall x :: x in a <==> x in b
    ensures a == b
    decreases |a|
  {
    assert (a == [] || a[0] in a) && (b == [] || b[0] in b);
    if a != [] {
      assert a[0] == b[0] by {
        var i :| 0 <= i < |b| && b[i] == a[0];
        var j :| 0 <= j < |a| && a[j] == b[0];
      }
      forall x ensures x in a[1..] <==> x in b[1..] {
        if x in a[1..] { var i :| 0 <= i < |a| - 1 && a[1..][i] == x; assert a[i + 1] == x && x in b; }
        if x in b[1..] { var i :| 0 <= i < |b| - 1 && b[1..][i] == x; assert b[i + 1] == x && x in a; }
      }
      SameSeq(a[1..], b[1..]);
    }
  }

  /** Scans of the same accounts give the same list. */
  lemma AnyScanOrder(all: set<Balance>, num: nat, a: seq<Balance>, b: seq<Balance>)
    requires Descending(a) && IsTop(all, num, Elements(a))
    requires Descending(b) && IsTop(all, num, Elements(b))
    ensures a == b
  {
    TopIsUnique(all, num, Elements(a), Elements(b));
    SameSeq(a, b);
  }

  // ---------------------------------------------------------------- the heap

  predicate IsSmallest(heap: set<Balance>, m: Balance) {
    m in heap && forall x | x in heap && x != m :: Less(m, x)
  }

  lemma {:induction false} HasSmallest(heap: set<Balance>)
    requires heap != {}
    ensures exists m :: IsSmallest(heap, m)
    decreases heap
  {
    var y :| y in heap;
    if heap == {y} {
      assert IsSmallest(heap, y);
    } else {
      HasSmallest(heap - {y});
      var n :| IsSmallest(heap - {y}, n);
      var m := if Less(n, y) then n else y;
      forall x | x in heap && x != m ensures Less(m, x) { assert x == y || x in heap - {y}; }
      assert IsSmallest(heap, m);
    }
  }

  /** The smallest entry of the heap. */
  method Peek(heap: set<Balance>) returns (smallest: Balance)
    requires heap != {}
    ensures IsSmallest(heap, smallest)
  {
    HasSmallest(heap);
    smallest :| smallest in heap && IsSmallest(heap, smallest);
  }

  /** Draining the heap, largest first. */
  method IntoSorted(heap: set<Balance>) returns (sorted: seq<Balance>)
    ensures Descending(sorted) && Elements(sorted) == heap
  {
    sorted := [];
    var rest := heap;
    while rest != {}
      invariant rest <= heap && forall x :: x in sorted <==> x in heap && x !in rest
      invariant Descending(sorted) && forall a, b | a in rest && b in sorted :: Less(b, a)
      decreases rest
    {
      var smallest := Peek(rest);
      rest := rest - {smallest};
      ghost var before := sorted;
      sorted := [smallest] + sorted;
      assert forall x :: x in sorted <==> x == smallest || x in before;
    }
  }

  lemma Grows(all: set<Balance>, num: nat, top: set<Balance>, b: Balance)
    requires IsTop(all, num, top) && b !in all && |top| < num
    ensures IsTop(all + {b}, num, top + {b})
  {
    Sets.SameSize(top, all);
  }

  lemma Stays(all: set<Balance>, num: nat, top: set<Balance>, b: Balance, smallest: Balance)
    requires IsTop(all, num, top) && b !in all && |top| == num && smallest in top
    requires Less(b, smallest) && forall x | x in top && x != smallest :: Less(smallest, x)
    ensures IsTop(all + {b}, num, top)
  {
    assert all == top + (all - top);
  }

  lemma Replaces(all: set<Balance>, num: nat, top: set<Balance>, b: Balance, smallest: Balance)
    requires IsTop(all, num, top) && b !in all && |top| == num && smallest in top
    requires Less(smallest, b) && forall x | x in top && x != smallest :: Less(smallest, x)
    ensures IsTop(all + {b}, num, top - {smallest} + {b})
  {
    assert all == top + (all - top);
  }

  /** Each account is scanned once. */
  ghost predicate EachOnce(scan: seq<Balance>) {
    forall i, j :: 0 <= i < j < |scan| ==> scan[i].key != scan[j].key
  }

  method LoadLargestAccounts(scan: seq<Balance>, num: nat, addresses: set<Pubkey>, filter: Filter)
    returns (largest: seq<Balance>)
    requires EachOnce(scan)
    ensures Descending(largest)
    ensures IsTop(Collected(scan, addresses, filter), num, Elements(largest))
    ensures forall b | b in largest :: b in scan && b.lamports > 0 && (b.key in addresses <==> filter == Include)
    ensures forall i, j :: 0 <= i < j < |largest| ==> largest[i].lamports >= largest[j].lamports
    ensures forall i, j :: 0 <= i < j < |largest| && largest[i].lamports == largest[j].lamports ==>
      largest[i].key > largest[j].key
    ensures |largest| <= num
    ensures forall a | a in scan && a.lamports > 0 && (a.key in addresses <==> filter == Include) && a !in largest ::
      |largest| == num && forall b | b in largest ::
        a.lamports < b.lamports || (a.lamports == b.lamports && a.key < b.key)
  {
    if num == 0 {
      return [];
    }
    var heap: set<Balance> := {};
    for i := 0 to |scan|
      invariant IsTop(Collected(scan[..i], addresses, filter), num, heap)
    {
      var b := scan[i];
      CollectsNext(scan, i, addresses, filter);
      if !Collects(b, addresses, filter) { continue; }
      ghost var all := Collected(scan[..i], addresses, filter);
      hide IsTop, Collected, EachOnce;
      if |heap| == num {
        var smallest := Peek(heap);
        if !Less(smallest, b) {
          TopIsCollected(all, num, heap, smallest, b);
          Stays(all, num, heap, b, smallest);
          continue;
        }
        Replaces(all, num, heap, b, smallest);
        heap := heap - {smallest} + {b};
      } else {
        TopIsSmall(all, num, heap);
        Grows(all, num, heap, b);
        heap := heap + {b};
      }
    }
    assert scan[..|scan|] == scan;
    largest := IntoSorted(heap);
    TopMeans(scan, num, addresses, filter, largest);
  }

  /** The list in terms of lamports and keys. */
  lemma TopMeans(scan: seq<Balance>, num: nat, addresses: set<Pubkey>, filter: Filter, largest: seq<Balance>)
    requires Descending(largest) && IsTop(Collected(scan, addresses, filter), num, Elements(largest))
    ensures forall b | b in largest :: b in scan && b.lamports > 0 && (b.key in addresses <==> filter == Include)
    ensures |largest| <= num
    ensures forall a | a in scan && a.lamports > 0 && (a.key in addresses <==> filter == Include) && a !in largest ::
      |largest| == num && forall b | b in largest ::
        a.lamports < b.lamports || (a.lamports == b.lamports && a.key < b.key)
  {
    var all, top := Collected(scan, addresses, filter), Elements(largest);
    ElementsCount(largest);
    forall b | b in largest ensures b in scan && Collects(b, addresses, filter) { assert b in top && b in all; }
    forall a | a in scan && a.lamports > 0 && (a.key in addresses <==> filter == Include) && a !in largest
      ensures |largest| == num && forall b | b in largest :: Less(a, b)
    {
      assert a in all && a !in top;
      if |all| < num { Sets.SameSize(top, all); }
    }
  }

  lemma {:induction false} ElementsCount(s: seq<Balance>)
    requires Descending(s)
    ensures |Elements(s)| == |s|
  {
    if s != [] {
      var front, last := s[..|s| - 1], s[|s| - 1];
      ElementsCount(front);
      assert last !in front;
      assert Elements(s) == Elements(front) + {last};
    }
  }

  lemma TopIsSmall(all: set<Balance>, num: nat, top: set<Balance>)
    requires IsTop(all, num, top)
    ensures |top| <= num
  {}

  lemma TopIsCollected(all: set<Balance>, num: nat, top: set<Balance>, smallest: Balance, b: Balance)
    requires IsTop(all, num, top) && smallest in top && b !in all && !Less(smallest, b)
    ensures Less(b, smallest)
  {}

  lemma CollectsNext(scan: seq<Balance>, i: nat, addresses: set<Pubkey>, filter: Filter)
    requires EachOnce(scan) && i < |scan|
    ensures scan[i] !in Collected(scan[..i], addresses, filter)
    ensures Collected(scan[..i + 1], addresses, filter) ==
      Collected(scan[..i], addresses, filter) + if Collects(scan[i], addresses, filter) then {scan[i]} else {}
  {
    assert scan[..i + 1] == scan[..i] + [scan[i]];
  }
}
