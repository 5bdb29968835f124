/**
 The queue of recent blockhashes: a map pruned by age that answers as the full history of registrations would.
 */
module BlockhashQueue {
  import opened Types

  type Hash = nat
  datatype HashInfo = HashInfo(lamportsPerSignature: nat, hashIndex: nat)
  datatype Registration = Registration(hash: Hash, lamportsPerSignature: nat)

  // ---------------------------------------------------------------- the full history

  /** Is registration `i` the latest of its hash? */
  ghost predicate IsLatest(log: seq<Registration>, i: nat) {
    i < |log| && forall j :: i < j < |log| ==> log[j].hash != log[i].hash
  }

  /** Is registration `i` among the last `age + 1`? */
  ghost predicate WithinAge(log: seq<Registration>, i: nat, age: nat) {
    i < |log| && |log| - 1 - i <= age
  }

  function HashesOf(log: seq<Registration>): (s: set<Hash>)
    ensures forall h :: h in s <==> exists i :: 0 <= i < |log| && log[i].hash == h
  {
    set i | 0 <= i < |log| :: log[i].hash
  }

  lemma LatestByRest(log: seq<Registration>, i: nat)
    requires i < |log|
    ensures IsLatest(log, i) <==> log[i].hash !in HashesOf(log[i + 1..])
  {
    var rest := log[i + 1..];
    assert forall j :: i < j < |log| ==> log[j] == rest[j - i - 1];
    assert forall j :: 0 <= j < |rest| ==> rest[j] == log[i + 1 + j];
  }

  /** The queue's entry of a hash is its latest registration. Registration `i` has hash index `first + i`. */
  ghost predicate EntriesOk(hashes: map<Hash, HashInfo>, log: seq<Registration>, first: nat) {
    forall h | h in hashes ::
      var i := hashes[h].hashIndex - first;
      && 0 <= i < |log| && IsLatest(log, i)
      && log[i] == Registration(h, hashes[h].lamportsPerSignature)
  }

  /** No latest registration within the maximal age has been dropped. */
  ghost predicate Complete(hashes: map<Hash, HashInfo>, log: seq<Registration>, maxAge: nat) {
    forall i: nat | IsLatest(log, i) && WithinAge(log, i, maxAge) :: log[i].hash in hashes
  }

  lemma {:induction false} FewIndexes(hashes: map<Hash, HashInfo>, low: nat, n: nat)
    requires forall h | h in hashes :: low <= hashes[h].hashIndex < low + n
    requires forall h, g | h in hashes && g in hashes && h != g :: hashes[h].hashIndex != hashes[g].hashIndex
    ensures |hashes| <= n
    decreases n
  {
    if n == 0 {
      assert hashes == map[];
    } else if h :| h in hashes && hashes[h].hashIndex == low + n - 1 {
      var rest := hashes - {h};
      assert hashes.Keys == rest.Keys + {h};
      FewIndexes(rest, low, n - 1);
      assert |hashes| == |hashes.Keys| && |rest| == |rest.Keys|;
    } else {
      FewIndexes(hashes, low, n - 1);
    }
  }

  /** Entries of the last `n` registrations are at most `n`. */
  lemma FewEntries(hashes: map<Hash, HashInfo>, log: seq<Registration>, first: nat, n: nat)
    requires EntriesOk(hashes, log, first) && n <= |log|
    requires forall h | h in hashes :: hashes[h].hashIndex >= first + |log| - n
    ensures |hashes| <= n
  {
    FewIndexes(hashes, first + |log| - n, n);
  }

  // ---------------------------------------------------------------- one registration

  /** Registering moves the log on by one. */
  lemma LatestNext(log: seq<Registration>, r: Registration, i: nat)
    ensures IsLatest(log + [r], i) <==> i == |log| || (IsLatest(log, i) && log[i].hash != r.hash)
  {
    var next := log + [r];
    if i < |log| {
      assert next[i] == log[i] && next[|log|] == r;
      if IsLatest(next, i) {
        forall j | i < j < |log| ensures log[j].hash != log[i].hash { assert next[j] == log[j]; }
      }
    }
  }

  lemma RegisterEntries(hashes: map<Hash, HashInfo>, log: seq<Registration>, first: nat, r: Registration)
    requires EntriesOk(hashes, log, first)
    ensures EntriesOk(hashes[r.hash := HashInfo(r.lamportsPerSignature, first + |log|)], log + [r], first)
  {
    var after := hashes[r.hash := HashInfo(r.lamportsPerSignature, first + |log|)];
    forall h | h in after
      ensures var i := after[h].hashIndex - first;
        0 <= i < |log + [r]| && IsLatest(log + [r], i) &&
          (log + [r])[i] == Registration(h, after[h].lamportsPerSignature)
    {
      LatestNext(log, r, after[h].hashIndex - first);
    }
  }

  lemma RegisterComplete(hashes: map<Hash, HashInfo>, kept: map<Hash, HashInfo>, log: seq<Registration>, first: nat,
                         maxAge: nat, r: Registration)
    requires EntriesOk(hashes, log, first) && Complete(hashes, log, maxAge)
    requires forall h | h in hashes && first + |log| - hashes[h].hashIndex <= maxAge :: h in kept
    ensures Complete(kept[r.hash := HashInfo(r.lamportsPerSignature, first + |log|)], log + [r], maxAge)
  {
    var after := kept[r.hash := HashInfo(r.lamportsPerSignature, first + |log|)];
    forall i: nat | IsLatest(log + [r], i) && WithinAge(log + [r], i, maxAge) ensures (log + [r])[i].hash in after {
      LatestNext(log, r, i);
      if i < |log| {
        assert WithinAge(log, i, maxAge);
        EntryIndex(hashes, log, first, i);
      }
    }
  }

  /** The entry of a hash has the index of its latest registration. */
  lemma EntryIndex(hashes: map<Hash, HashInfo>, log: seq<Registration>, first: nat, i: nat)
    requires EntriesOk(hashes, log, first) && IsLatest(log, i) && log[i].hash in hashes
    ensures hashes[log[i].hash] == HashInfo(log[i].lamportsPerSignature, first + i)
  {
    var k := hashes[log[i].hash].hashIndex - first;
    assert IsLatest(log, k) && log[k].hash == log[i].hash;
  }

  class Queue {
    var lastHashIndex: nat
    var lastHash: Option<Hash>
    var hashes: map<Hash, HashInfo>
    const maxAge: nat
    ghost var log: seq<Registration>
    ghost var first: nat  // 0 if the log starts with the genesis hash, 1 otherwise

    ghost predicate Valid()
      reads this
    {
      && (log != [] ==> lastHashIndex == first + |log| - 1 && lastHash == Some(log[|log| - 1].hash))
      && (log == [] ==> lastHashIndex == 0 && first == 1 && lastHash == None)
      && first <= 1
      && EntriesOk(hashes, log, first) && Complete(hashes, log, maxAge)
      && |hashes| <= maxAge + 1
    }

    constructor (maxAge: nat)
      ensures Valid() && log == [] && this.maxAge == maxAge
    {
      this.maxAge := maxAge;
      lastHashIndex, lastHash, hashes, log, first := 0, None, map[], [], 1;
    }

    /** The genesis hash gets index 0. It starts the history when it comes before every registration; a later one is
        recorded as if it were as old as the queue. */
    method GenesisHash(hash: Hash, lamportsPerSignature: nat)
      modifies this
      ensures hashes == old(hashes)[hash := HashInfo(lamportsPerSignature, 0)]
      ensures lastHash == Some(hash) && lastHashIndex == old(lastHashIndex)
      ensures old(Valid() && log == []) ==> Valid() && log == [Registration(hash, lamportsPerSignature)] && first == 0
      ensures !old(Valid() && log == []) ==> log == old(log) && first == old(first)
    {
      hide EntriesOk, Complete;
      if Valid() && log == [] {
        GenesisEntry(hashes, first, maxAge, Registration(hash, lamportsPerSignature));
        log, first := [Registration(hash, lamportsPerSignature)], 0;
      }
      hashes := hashes[hash := HashInfo(lamportsPerSignature, 0)];
      lastHash := Some(hash);
    }

    method RegisterHash(hash: Hash, lamportsPerSignature: nat)
      requires Valid()
      modifies this
      ensures Valid() && log == old(log) + [Registration(hash, lamportsPerSignature)] && first == old(first)
    {
      hide EntriesOk, Complete;
      ghost var r := Registration(hash, lamportsPerSignature);
      lastHashIndex := lastHashIndex + 1;
      var kept := Expire(hashes, lastHashIndex, maxAge, log, first);
      RegisterEntries(kept, log, first, r);
      RegisterComplete(hashes, kept, log, first, maxAge, r);
      MapGrows(kept, hash, HashInfo(lamportsPerSignature, lastHashIndex));
      hashes := kept[hash := HashInfo(lamportsPerSignature, lastHashIndex)];
      lastHash := Some(hash);
      log := log + [r];
    }

    /** For every age up to the queue's own, a hash is valid exactly when its latest registration is among the
        last `age + 1`; for a larger age the queue may have dropped it, but never accepts an older one. */
    method GetHashInfoIfValid(hash: Hash, age: nat) returns (info: Option<HashInfo>)
      requires Valid()
      ensures info.Some? ==> RegisteredWithin(log, Registration(hash, info.value.lamportsPerSignature), age)
      ensures info.Some? ==> exists i ::
        && 0 <= i < |log| && |log| - 1 - i <= age && hash !in HashesOf(log[i + 1..])
        && log[i] == Registration(hash, info.value.lamportsPerSignature)
      ensures age <= maxAge && info.None? ==>
        forall i | 0 <= i < |log| && log[i].hash == hash && hash !in HashesOf(log[i + 1..]) :: |log| - 1 - i > age
    {
      hide EntriesOk, Complete, RegisteredWithin, HashesOf;
      ByPositions(log, hash, age);
      IndexesOk(hashes, log, first);
      if hash in hashes && lastHashIndex - hashes[hash].hashIndex <= age {
        info := Some(hashes[hash]);
        FoundWithin(hashes, log, first, hash, age);
      } else {
        info := None;
        if age <= maxAge { MissingWithin(hashes, log, first, maxAge, hash, age); }
      }
    }

    /** The age never underflows and counts the registrations since. */
    method GetHashAge(hash: Hash) returns (age: Option<nat>)
      requires Valid()
      ensures age.Some? ==>
        age.value < |log| && log[|log| - 1 - age.value].hash == hash &&
        hash !in HashesOf(log[|log| - age.value..])
      ensures age.None? <==> hash !in hashes
    {
      hide Complete, HashesOf, RegisteredWithin;
      IndexesOk(hashes, log, first);
      if hash in hashes {
        FoundWithin(hashes, log, first, hash, lastHashIndex);
        hide EntriesOk, IsLatest;
        LatestByRest(log, hashes[hash].hashIndex - first);
        age := Some(lastHashIndex - hashes[hash].hashIndex);
      } else {
        age := None;
      }
    }
  }

  /** The latest registration of the hash is this one, and it is among the last `age + 1`. */
  ghost predicate RegisteredWithin(log: seq<Registration>, r: Registration, age: nat) {
    exists i: nat :: IsLatest(log, i) && WithinAge(log, i, age) && log[i] == r
  }

  lemma ByPositions(log: seq<Registration>, hash: Hash, age: nat)
    ensures forall r: Registration | r.hash == hash && RegisteredWithin(log, r, age) ::
      exists i :: 0 <= i < |log| && |log| - 1 - i <= age && log[i] == r && hash !in HashesOf(log[i + 1..])
    ensures (forall r: Registration | r.hash == hash :: !RegisteredWithin(log, r, age)) ==>
      forall i | 0 <= i < |log| && log[i].hash == hash && hash !in HashesOf(log[i + 1..]) :: |log| - 1 - i > age
  {
    hide HashesOf;
    forall i | 0 <= i < |log| ensures IsLatest(log, i) <==> log[i].hash !in HashesOf(log[i + 1..]) {
      LatestByRest(log, i);
    }
    forall r: Registration | r.hash == hash && RegisteredWithin(log, r, age)
      ensures exists i :: 0 <= i < |log| && |log| - 1 - i <= age && log[i] == r && hash !in HashesOf(log[i + 1..])
    {
      var i: nat :| IsLatest(log, i) && WithinAge(log, i, age) && log[i] == r;
      assert log[i].hash !in HashesOf(log[i + 1..]);
    }
    if forall r: Registration | r.hash == hash :: !RegisteredWithin(log, r, age) {
      forall i | 0 <= i < |log| && log[i].hash == hash && hash !in HashesOf(log[i + 1..]) ensures |log| - 1 - i > age {
        assert !RegisteredWithin(log, log[i], age) && IsLatest(log, i);
      }
    }
  }

  lemma FoundWithin(hashes: map<Hash, HashInfo>, log: seq<Registration>, first: nat, hash: Hash, age: nat)
    requires EntriesOk(hashes, log, first) && hash in hashes && log != [] &&
      first + |log| - 1 - hashes[hash].hashIndex <= age
    ensures RegisteredWithin(log, Registration(hash, hashes[hash].lamportsPerSignature), age)
    ensures var i := hashes[hash].hashIndex - first; 0 <= i < |log| && IsLatest(log, i) && log[i].hash == hash
  {
    var i := hashes[hash].hashIndex - first;
    assert IsLatest(log, i) && WithinAge(log, i, age);
  }

  lemma MissingWithin(hashes: map<Hash, HashInfo>, log: seq<Registration>, first: nat, maxAge: nat, hash: Hash,
                      age: nat)
    requires EntriesOk(hashes, log, first) && Complete(hashes, log, maxAge) && age <= maxAge
    requires hash in hashes ==> log != [] && first + |log| - 1 - hashes[hash].hashIndex > age
    ensures forall r: Registration | r.hash == hash :: !RegisteredWithin(log, r, age)
  {
    forall i: nat | IsLatest(log, i) && WithinAge(log, i, age) ensures log[i].hash != hash {
      assert WithinAge(log, i, maxAge);
      assert log[i].hash in hashes;
      EntryIndex(hashes, log, first, i);
    }
  }

  lemma GenesisEntry(hashes: map<Hash, HashInfo>, first: nat, maxAge: nat, r: Registration)
    requires EntriesOk(hashes, [], first)
    ensures var after := hashes[r.hash := HashInfo(r.lamportsPerSignature, 0)];
      EntriesOk(after, [r], 0) && Complete(after, [r], maxAge) && |after| == 1
  {
    assert hashes == map[] by {
      forall h ensures h !in hashes {}
    }
    var after := map[r.hash := HashInfo(r.lamportsPerSignature, 0)];
    assert after.Keys == {r.hash};
    assert hashes[r.hash := HashInfo(r.lamportsPerSignature, 0)] == after;
    assert |after| == |after.Keys|;
  }

  /** Drops the hashes that the next registration makes too old, once the queue is full. */
  method Expire(hashes: map<Hash, HashInfo>, lastHashIndex: nat, maxAge: nat, ghost log: seq<Registration>,
                ghost first: nat)
    returns (kept: map<Hash, HashInfo>)
    requires EntriesOk(hashes, log, first) && lastHashIndex == first + |log|
    ensures EntriesOk(kept, log, first) && |kept| <= maxAge
    ensures forall h | h in hashes && lastHashIndex - hashes[h].hashIndex <= maxAge :: h in kept
  {
    hide EntriesOk;
    kept := hashes;
    if |hashes| >= maxAge {
      IndexesOk(hashes, log, first);
      kept := map h | h in hashes && lastHashIndex - hashes[h].hashIndex <= maxAge :: hashes[h];
      KeptEntries(hashes, kept, log, first);
      FewKept(kept, log, first, maxAge);
    }
  }

  /** No entry has an index above the last one. */
  lemma IndexesOk(hashes: map<Hash, HashInfo>, log: seq<Registration>, first: nat)
    requires EntriesOk(hashes, log, first)
    ensures forall h | h in hashes :: first <= hashes[h].hashIndex <= first + |log| - 1
  {}

  lemma KeptEntries(hashes: map<Hash, HashInfo>, kept: map<Hash, HashInfo>, log: seq<Registration>, first: nat)
    requires EntriesOk(hashes, log, first) && forall h | h in kept :: h in hashes && kept[h] == hashes[h]
    ensures EntriesOk(kept, log, first)
  {}

  lemma FewKept(kept: map<Hash, HashInfo>, log: seq<Registration>, first: nat, maxAge: nat)
    requires EntriesOk(kept, log, first) && forall h | h in kept :: first + |log| - kept[h].hashIndex <= maxAge
    ensures |kept| <= maxAge
  {
    if maxAge <= |log| {
      FewEntries(kept, log, first, maxAge);
    } else {
      FewEntries(kept, log, first, |log|);
    }
  }

  lemma MapGrows(m: map<Hash, HashInfo>, h: Hash, info: HashInfo)
    ensures |m[h := info]| <= |m| + 1
  {
    assert m[h := info].Keys == m.Keys + {h};
    assert |m[h := info]| == |m[h := info].Keys| && |m| == |m.Keys|;
  }
}
