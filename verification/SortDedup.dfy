/**
 Sorting the records of a storage by key and keeping the last of each key, in place.
 */
module SortDedup {
  import opened Types

  datatype Record = Record(key: Pubkey, offset: nat)

  // ---------------------------------------------------------------- the stable sort

  ghost predicate Sorted(s: seq<Record>) {
    forall i, j :: 0 <= i < j < |s| ==> s[i].key <= s[j].key
  }

  ghost predicate StrictlySorted(s: seq<Record>) {
    forall i, j :: 0 <= i < j < |s| ==> s[i].key < s[j].key
  }

  /** The records of one key, in order. */
  ghost function Versions(s: seq<Record>, key: Pubkey): seq<Record> {
    if s == [] then []
    else Versions(s[..|s| - 1], key) + if s[|s| - 1].key == key then [s[|s| - 1]] else []
  }

  /** Inserts after the records with an equal key. */
  function Insert(s: seq<Record>, r: Record): seq<Record> {
    if s == [] || s[|s| - 1].key <= r.key then s + [r]
    else Insert(s[..|s| - 1], r) + [s[|s| - 1]]
  }

  function StableSort(s: seq<Record>): (t: seq<Record>)
    ensures |t| == |s|
  {
    if s == [] then [] else
      var t := Insert(StableSort(s[..|s| - 1]), s[|s| - 1]);
      InsertLength(StableSort(s[..|s| - 1]), s[|s| - 1]);
      t
  }

  lemma {:induction false} InsertLength(s: seq<Record>, r: Record)
    ensures |Insert(s, r)| == |s| + 1
  {
    if s != [] && s[|s| - 1].key > r.key { InsertLength(s[..|s| - 1], r); }
  }

  lemma VersionsAppend(s: seq<Record>, r: Record, key: Pubkey)
    ensures Versions(s + [r], key) == Versions(s, key) + if r.key == key then [r] else []
  {
    assert (s + [r])[..|s|] == s;
  }

  lemma {:induction false} InsertVersions(s: seq<Record>, r: Record, key: Pubkey)
    requires Sorted(s)
    ensures Versions(Insert(s, r), key) == Versions(s, key) + if r.key == key then [r] else []
  {
    if s == [] || s[|s| - 1].key <= r.key {
      VersionsAppend(s, r, key);
    } else {
      var front, last := s[..|s| - 1], s[|s| - 1];
      InsertVersions(front, r, key);
      VersionsAppend(Insert(front, r), last, key);
    }
  }

  lemma {:induction false} InsertSorted(s: seq<Record>, r: Record, bound: Pubkey)
    requires Sorted(s) && r.key <= bound && forall i :: 0 <= i < |s| ==> s[i].key <= bound
    ensures Sorted(Insert(s, r)) && forall i :: 0 <= i < |Insert(s, r)| ==> Insert(s, r)[i].key <= bound
  {
    if s != [] && s[|s| - 1].key > r.key { InsertSorted(s[..|s| - 1], r, s[|s| - 1].key); }
  }

  lemma {:induction false} HasBound(s: seq<Record>) returns (bound: Pubkey)
    ensures forall i :: 0 <= i < |s| ==> s[i].key <= bound
  {
    if s == [] {
      bound := 0;
    } else {
      bound := HasBound(s[..|s| - 1]);
      if bound < s[|s| - 1].key { bound := s[|s| - 1].key; }
      forall i | 0 <= i < |s| ensures s[i].key <= bound { assert i < |s| - 1 ==> s[i] == s[..|s| - 1][i]; }
    }
  }

  /** The sort orders the keys and keeps the order of the records of each key. */
  lemma {:induction false} SortIsStable(s: seq<Record>, key: Pubkey)
    ensures Sorted(StableSort(s)) && Versions(StableSort(s), key) == Versions(s, key)
  {
    if s != [] {
      var front, last := s[..|s| - 1], s[|s| - 1];
      SortIsStable(front, key);
      var bound := HasBound(StableSort(front) + [last]);
      assert last == (StableSort(front) + [last])[|front|];
      forall i | 0 <= i < |front| ensures StableSort(front)[i].key <= bound {
        assert StableSort(front)[i] == (StableSort(front) + [last])[i];
      }
      InsertSorted(StableSort(front), last, bound);
      InsertVersions(StableSort(front), last, key);
    }
  }

  // ---------------------------------------------------------------- the in-place pass

  /** The last of each run of equal keys. */
  ghost function Dedup(s: seq<Record>): (d: seq<Record>)
    ensures s != [] ==> 0 < |d| <= |s| && d[|d| - 1] == s[|s| - 1]
    ensures s == [] ==> d == []
  {
    if |s| <= 1 then s
    else
      var d := Dedup(s[..|s| - 1]);
      if s[|s| - 1].key == d[|d| - 1].key then d[|d| - 1 := s[|s| - 1]] else d + [s[|s| - 1]]
  }

  lemma {:induction false} DedupSorted(s: seq<Record>)
    requires Sorted(s)
    ensures StrictlySorted(Dedup(s))
  {
    if |s| > 1 {
      var front := s[..|s| - 1];
      DedupSorted(front);
      assert Dedup(front)[|Dedup(front)| - 1] == front[|front| - 1];
    }
  }

  /** Of a key with versions `v`, the last one is in `d`, and no other. */
  ghost predicate KeepsLast(v: seq<Record>, d: seq<Record>, key: Pubkey) {
    && (v != [] ==> v[|v| - 1] in d)
    && (forall i :: 0 <= i < |d| && d[i].key == key ==> v != [] && d[i] == v[|v| - 1])
    && (forall i :: 0 <= i < |v| ==> v[i].key == key)
  }

  function Grown(v: seq<Record>, last: Record, key: Pubkey): seq<Record> {
    v + if last.key == key then [last] else []
  }

  lemma AppendKeepsLast(v: seq<Record>, d: seq<Record>, key: Pubkey, last: Record)
    requires KeepsLast(v, d, key) && StrictlySorted(d) && d != [] && d[|d| - 1].key < last.key
    ensures KeepsLast(Grown(v, last, key), d + [last], key)
  {
    var d' := d + [last];
    assert d'[|d|] == last;
    if v != [] && key != last.key {
      var i :| 0 <= i < |d| && d[i] == v[|v| - 1];
      assert d'[i] == d[i];
    }
  }

  lemma ReplaceKeepsLast(v: seq<Record>, d: seq<Record>, key: Pubkey, last: Record)
    requires KeepsLast(v, d, key) && StrictlySorted(d) && d != [] && d[|d| - 1].key == last.key
    ensures KeepsLast(Grown(v, last, key), d[|d| - 1 := last], key)
  {
    var d' := d[|d| - 1 := last];
    assert d'[|d| - 1] == last;
    if v != [] && key != last.key {
      var i :| 0 <= i < |d| && d[i] == v[|v| - 1];
      assert d'[i] == d[i];
    }
  }

  lemma ShortKeepsLast(s: seq<Record>, key: Pubkey)
    requires |s| <= 1
    ensures KeepsLast(Versions(s, key), Dedup(s), key)
  {
    if |s| == 1 { assert s[..0] == []; }
  }

  lemma DedupStep(s: seq<Record>, key: Pubkey)
    requires |s| > 1 && Sorted(s)
    ensures var d, last := Dedup(s[..|s| - 1]), s[|s| - 1];
      && d != [] && d[|d| - 1].key <= last.key
      && Dedup(s) == (if last.key == d[|d| - 1].key then d[|d| - 1 := last] else d + [last])
      && Versions(s, key) == Grown(Versions(s[..|s| - 1], key), last, key)
  {
    var front := s[..|s| - 1];
    assert Dedup(front)[|Dedup(front)| - 1] == front[|front| - 1];
  }

  /** Every survivor is the last version of its key, and every key survives. */
  lemma {:induction false} DedupKeepsLast(s: seq<Record>, key: Pubkey)
    requires Sorted(s)
    ensures KeepsLast(Versions(s, key), Dedup(s), key)
  {
    hide KeepsLast, StrictlySorted, Dedup, Versions;
    if |s| <= 1 {
      ShortKeepsLast(s, key);
    } else {
      var front, last := s[..|s| - 1], s[|s| - 1];
      DedupKeepsLast(front, key);
      DedupSorted(front);
      DedupStep(s, key);
      var d := Dedup(front);
      if last.key == d[|d| - 1].key {
        ReplaceKeepsLast(Versions(front, key), d, key, last);
      } else {
        AppendKeepsLast(Versions(front, key), d, key, last);
      }
    }
  }

  method SortInPlace(a: array<Record>)
    modifies a
    ensures a[..] == StableSort(old(a[..]))
  {
    var sorted := StableSort(a[..]);
    forall i | 0 <= i < a.Length { a[i] := sorted[i]; }
  }

  lemma DedupNext(s: seq<Record>, curr: nat)
    requires 0 < curr < |s|
    ensures var d := Dedup(s[..curr]);
      Dedup(s[..curr + 1]) == if s[curr].key == d[|d| - 1].key then d[|d| - 1 := s[curr]] else d + [s[curr]]
  {
    assert s[..curr + 1][..curr] == s[..curr] && s[..curr + 1][curr] == s[curr];
  }

  /** The in-place pass over sorted records. */
  method RemoveDups(a: array<Record>) returns (len: nat)
    modifies a
    ensures len <= a.Length && a[..len] == Dedup(old(a[..]))
  {
    ghost var sorted := a[..];
    assert |sorted| <= 1 ==> Dedup(sorted) == sorted;
    if a.Length <= 1 {
      assert a[..a.Length] == sorted;
      return a.Length;
    }
    var last, curr := 0, 1;
    assert Dedup(sorted[..1]) == sorted[..1] && a[..1] == sorted[..1];
    hide Dedup;
    ghost var d := sorted[..1];
    while curr < a.Length
      invariant 0 <= last < curr <= a.Length
      invariant a[..last + 1] == d == Dedup(sorted[..curr])
      invariant forall i :: curr <= i < a.Length ==> a[i] == sorted[i]
    {
      DedupNext(sorted, curr);
      assert a[last] == d[last];
      if a[curr].key != a[last].key {
        last := last + 1;
        d := d + [sorted[curr]];
      } else {
        d := d[last := sorted[curr]];
      }
      a[last] := a[curr];
      curr := curr + 1;
    }
    assert sorted[..a.Length] == sorted;
    len := last + 1;
  }

  /** What is left of the records: the last version of each key, in the order of the keys. */
  ghost predicate LastOfEach(s: seq<Record>, d: seq<Record>) {
    && StrictlySorted(d)
    && (forall r | r in d :: Versions(s, r.key) != [] && r == Versions(s, r.key)[|Versions(s, r.key)| - 1])
    && (forall key | Versions(s, key) != [] :: Versions(s, key)[|Versions(s, key)| - 1] in d)
  }

  lemma DedupIsLastOfEach(s: seq<Record>)
    ensures LastOfEach(s, Dedup(StableSort(s)))
  {
    hide Dedup, StableSort, Versions;
    var sorted := StableSort(s);
    SortIsStable(s, 0);
    DedupSorted(sorted);
    forall key: Pubkey
      ensures Versions(sorted, key) == Versions(s, key)
      ensures Versions(s, key) != [] ==> Versions(s, key)[|Versions(s, key)| - 1] in Dedup(sorted)
    {
      SortIsStable(s, key);
      DedupKeepsLast(sorted, key);
    }
    forall r | r in Dedup(sorted) ensures Versions(s, r.key) != [] &&
      r == Versions(s, r.key)[|Versions(s, r.key)| - 1] {
      DedupKeepsLast(sorted, r.key);
      assert KeepsLast(Versions(sorted, r.key), Dedup(sorted), r.key);
    }
  }

  /** The last of a key's records is the one after which the key does not occur. */
  lemma {:induction false} LastVersion(s: seq<Record>, r: Record)
    ensures (Versions(s, r.key) != [] && Versions(s, r.key)[|Versions(s, r.key)| - 1] == r) <==>
      exists i :: IsLastAt(s, r, i)
  {
    if s != [] {
      var n := |s| - 1;
      var front := s[..n];
      LastVersion(front, r);
      assert s[n].key != r.key ==> forall i :: IsLastAt(s, r, i) <==> IsLastAt(front, r, i);
      assert s[n].key == r.key ==> forall i :: IsLastAt(s, r, i) ==> i == n;
      assert s[n] == r ==> IsLastAt(s, r, n);
    }
  }

  ghost predicate IsLastAt(s: seq<Record>, r: Record, i: int) {
    0 <= i < |s| && s[i] == r && forall j :: i < j < |s| ==> s[j].key != r.key
  }

  lemma LastByPosition(s: seq<Record>, d: seq<Record>)
    requires LastOfEach(s, d)
    ensures forall r :: r in d <==> exists i :: IsLastAt(s, r, i)
  {
    forall r ensures r in d <==> exists i :: IsLastAt(s, r, i) { LastVersion(s, r); }
  }

  /** Sorts the records by key and removes all but the last of each key; the first `len` records are what is left. */
  method SortAndRemoveDups(a: array<Record>) returns (len: nat, numDuplicated: nat)
    modifies a
    ensures len <= a.Length && numDuplicated == a.Length - len
    ensures LastOfEach(old(a[..]), a[..len])
    ensures forall i, j :: 0 <= i < j < len ==> a[i].key < a[j].key
    ensures forall r :: r in a[..len] <==> exists i :: IsLastAt(old(a[..]), r, i)
  {
    DedupIsLastOfEach(a[..]);
    SortInPlace(a);
    len := RemoveDups(a);
    numDuplicated := a.Length - len;
    LastByPosition(old(a[..]), a[..len]);
    assert forall i :: 0 <= i < len ==> a[i] == a[..len][i];
  }
}
