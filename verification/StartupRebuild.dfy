/**
 The capitalization computed at startup is the sum over the accounts that a rebuild from the storages returns.
 */
module StartupRebuild {
  import opened Types
  import D = Database
  import T = DatabaseTheorems
  import N = NewestRecords
  import opened Startup

  /** The records of the storages that are not obsolete. */
  function Records(stores: D.Stores): (records: set<Pair>)
    ensures forall p :: p in records <==> D.HoldsKey(stores, p.1, p.0)
  {
    set x, k | x in stores && k in stores[x].accounts && k !in stores[x].obsolete :: (k, x)
  }

  function VersionsOf(stores: D.Stores): Versions {
    map p | p in Records(stores) :: stores[p.1].accounts[p.0]
  }

  /** The newest version at startup is the newest record of a rebuild. */
  lemma NewestIsRecord(stores: D.Stores, k: Pubkey, n: Slot)
    ensures (k, n) in NewestOf(VersionsOf(stores)) <==> T.IsNewestRecord(stores, k, n)
  {
    var versions := VersionsOf(stores);
    forall x: Slot ensures (k, x) in versions <==> D.HoldsKey(stores, x, k) {}
    if (k, n) in NewestOf(versions) {
      forall x: Slot | D.HoldsKey(stores, x, k) ensures x <= n { assert (k, x) in versions && (k, x).0 == k; }
    }
    if T.IsNewestRecord(stores, k, n) {
      forall q | q in versions && q.0 == k ensures q.1 <= n { assert q == (k, q.1); }
    }
  }

  function KeysOf(walk: seq<Pair>): (keys: seq<Pubkey>)
    ensures |keys| == |walk| && forall i :: 0 <= i < |walk| ==> keys[i] == walk[i].0
  {
    seq(|walk|, i requires 0 <= i < |walk| => walk[i].0)
  }

  lemma {:induction false} SameSum(f: Pair -> int, g: Pubkey -> int, walk: seq<Pair>)
    requires forall p | p in walk :: f(p) == g(p.0)
    ensures SumOf(LAMPORTS, f, walk) == SumOf(LAMPORTS, g, KeysOf(walk))
  {
    if walk != [] {
      var n := |walk| - 1;
      assert KeysOf(walk)[..n] == KeysOf(walk[..n]) && walk[n] in walk;
      forall p | p in walk[..n] ensures f(p) == g(p.0) { assert p in walk; }
      SameSum(f, g, walk[..n]);
    }
  }

  lemma InWalk(stores: D.Stores, walk: seq<Pair>, k: Pubkey, n: Slot)
    requires Enumerates(walk, NewestOf(VersionsOf(stores)))
    ensures (k, n) in walk <==> T.IsNewestRecord(stores, k, n)
  {
    assert (k, n) in walk <==> (k, n) in multiset(walk);
    NewestIsRecord(stores, k, n);
  }

  /** The lamports of the newest versions, in any order, are those of the accounts a rebuild returns for their keys. */
  lemma CapitalizationIsRebuilt(stores: D.Stores, f: Pair -> int, g: Pubkey -> int, walk: seq<Pair>)
    requires forall p | p in VersionsOf(stores) :: f(p) == VersionsOf(stores)[p].lamports
    requires forall k, r | T.Rebuilds(stores, k, r) :: g(k) == if r.Some? then r.value.lamports else 0
    requires Enumerates(walk, NewestOf(VersionsOf(stores)))
    ensures SumOf(LAMPORTS, f, walk) == SumOf(LAMPORTS, g, KeysOf(walk))
  {
    hide VersionsOf, NewestOf, SumOf, KeysOf, Enumerates;
    forall p | p in walk ensures f(p) == g(p.0) {
      assert p == (p.0, p.1);
      InWalk(stores, walk, p.0, p.1);
      RecordLamports(stores, f, g, p);
    }
    SameSum(f, g, walk);
  }

  lemma RecordLamports(stores: D.Stores, f: Pair -> int, g: Pubkey -> int, p: Pair)
    requires T.IsNewestRecord(stores, p.0, p.1)
    requires forall q | q in VersionsOf(stores) :: f(q) == VersionsOf(stores)[q].lamports
    requires forall k, r | T.Rebuilds(stores, k, r) :: g(k) == if r.Some? then r.value.lamports else 0
    ensures f(p) == g(p.0)
  {
    assert p in VersionsOf(stores);
    assert T.Rebuilds(stores, p.0, T.NonZero(stores[p.1].accounts[p.0]));
  }

  /** The keys summed over are exactly those with a record, once each. */
  lemma KeysOfRebuild(stores: D.Stores, walk: seq<Pair>, k: Pubkey)
    requires Enumerates(walk, NewestOf(VersionsOf(stores)))
    ensures k in KeysOf(walk) <==> exists x: Slot :: D.HoldsKey(stores, x, k)
    ensures forall i, j :: 0 <= i < j < |walk| ==> KeysOf(walk)[i] != KeysOf(walk)[j]
  {
    EnumeratesDistinct(walk, NewestOf(VersionsOf(stores)));
    hide VersionsOf, NewestOf, Enumerates;
    forall i | 0 <= i < |walk| ensures T.IsNewestRecord(stores, walk[i].0, walk[i].1) {
      assert walk[i] in walk && walk[i] == (walk[i].0, walk[i].1);
      InWalk(stores, walk, walk[i].0, walk[i].1);
    }
    forall i, j | 0 <= i < j < |walk| ensures walk[i].0 != walk[j].0 {
      assert walk[i] == (walk[i].0, walk[i].1) && walk[j] == (walk[j].0, walk[j].1) && walk[i] != walk[j];
    }
    if x: Slot :| D.HoldsKey(stores, x, k) {
      var n := N.HasNewestRecord(stores, k, x);
      InWalk(stores, walk, k, n);
      var i :| 0 <= i < |walk| && walk[i] == (k, n);
      assert KeysOf(walk)[i] == k;
    }
    if k in KeysOf(walk) {
      var i :| 0 <= i < |walk| && KeysOf(walk)[i] == k;
      assert D.HoldsKey(stores, walk[i].1, k);
    }
  }
}
