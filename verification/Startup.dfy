/**
 Startup index generation: every version of every account is added as the storages are scanned, the older versions are
 taken out again, and what is left is the sum over the newest versions. The totals are values of any abelian group:
 lamports, data lengths, or lattice hashes.
 */
module Startup {
  import opened Types
  import Sets

  type Pair = (Pubkey, Slot)
  /** The records of the storages that are not obsolete. */
  type Versions = map<Pair, Account>

  // ---------------------------------------------------------------- sums in an abelian group

  datatype Group<!G> = Group(zero: G, add: (G, G) -> G, sub: (G, G) -> G)

  ghost predicate Abelian<G(!new)>(g: Group<G>) {
    && (forall a, b :: g.add(a, b) == g.add(b, a))
    && (forall a, b, c :: g.add(g.add(a, b), c) == g.add(a, g.add(b, c)))
    && (forall a :: g.add(a, g.zero) == a)
    && (forall a, b :: g.sub(g.add(a, b), b) == a)
  }

  /** The sum of `f` over the sequence, in its order. */
  function SumOf<G, T>(g: Group<G>, f: T -> G, s: seq<T>): G {
    if s == [] then g.zero else g.add(SumOf(g, f, s[..|s| - 1]), f(s[|s| - 1]))
  }

  lemma {:induction false} SumConcat<G(!new), T>(g: Group<G>, f: T -> G, a: seq<T>, b: seq<T>)
    requires Abelian(g)
    ensures SumOf(g, f, a + b) == g.add(SumOf(g, f, a), SumOf(g, f, b))
    decreases |b|
  {
    if b == [] {
      assert a + b == a;
    } else {
      var front, last := b[..|b| - 1], b[|b| - 1];
      SumConcat(g, f, a, front);
      assert (a + b)[..|a + b| - 1] == a + front;
    }
  }

  lemma SumOne<G(!new), T>(g: Group<G>, f: T -> G, x: T)
    requires Abelian(g)
    ensures SumOf(g, f, [x]) == f(x)
  {
    assert g.add(f(x), g.zero) == g.add(g.zero, f(x));
  }

  /** The sum does not depend on the order. */
  lemma {:induction false} SumPermuted<G(!new), T>(g: Group<G>, f: T -> G, a: seq<T>, b: seq<T>)
    requires Abelian(g) && multiset(a) == multiset(b)
    ensures SumOf(g, f, a) == SumOf(g, f, b)
    decreases |a|
  {
    if a == [] {
      assert b == [] by { assert |multiset(b)| == 0; }
    } else {
      var front, last := a[..|a| - 1], a[|a| - 1];
      assert a == front + [last];
      assert last in multiset(b);
      var i :| 0 <= i < |b| && b[i] == last;
      var l, r := b[..i], b[i + 1..];
      assert b == l + [last] + r;
      assert multiset(front) + multiset{last} == multiset(l + r) + multiset{last};
      Cancel(multiset(front), multiset(l + r), last);
      SumPermuted(g, f, front, l + r);
      MoveToEnd(g, f, l, last, r);
    }
  }

  lemma Cancel<T>(a: multiset<T>, b: multiset<T>, x: T)
    requires a + multiset{x} == b + multiset{x}
    ensures a == b
  {
    forall y ensures a[y] == b[y] { assert (a + multiset{x})[y] == (b + multiset{x})[y]; }
  }

  lemma MoveToEnd<G(!new), T>(g: Group<G>, f: T -> G, l: seq<T>, x: T, r: seq<T>)
    requires Abelian(g)
    ensures SumOf(g, f, l + [x] + r) == g.add(SumOf(g, f, l + r), f(x))
  {
    assert (l + [x])[..|l|] == l;
    SumConcat(g, f, l + [x], r);
    SumConcat(g, f, l, r);
    var a, b, c := SumOf(g, f, l), f(x), SumOf(g, f, r);
    assert g.add(g.add(a, b), c) == g.add(a, g.add(b, c)) == g.add(a, g.add(c, b)) == g.add(g.add(a, c), b);
  }

  function Flatten<T>(parts: seq<seq<T>>): seq<T> {
    if parts == [] then [] else Flatten(parts[..|parts| - 1]) + parts[|parts| - 1]
  }

  /** Partial totals, one per part, add up to the total over all parts. */
  method SumParts<G(!new), T>(g: Group<G>, f: T -> G, parts: seq<seq<T>>) returns (total: G)
    requires Abelian(g)
    ensures total == SumOf(g, f, Flatten(parts))
  {
    total := g.zero;
    for i := 0 to |parts|
      invariant total == SumOf(g, f, Flatten(parts[..i]))
    {
      var part := g.zero;
      for j := 0 to |parts[i]|
        invariant part == SumOf(g, f, parts[i][..j])
      {
        assert parts[i][..j + 1][..j] == parts[i][..j];
        part := g.add(part, f(parts[i][j]));
      }
      assert parts[i][..|parts[i]|] == parts[i];
      assert parts[..i + 1][..i] == parts[..i];
      SumConcat(g, f, Flatten(parts[..i]), parts[i]);
      total := g.add(total, part);
    }
    assert parts[..|parts|] == parts;
  }

  // ---------------------------------------------------------------- newest and older versions

  predicate IsNewest(versions: Versions, p: Pair) {
    p in versions && forall q | q in versions && q.0 == p.0 :: q.1 <= p.1
  }

  function NewestOf(versions: Versions): set<Pair> {
    set p | p in versions && IsNewest(versions, p)
  }

  /** The duplicates: versions of the keys that have a newer one. */
  function OlderOf(versions: Versions, keys: set<Pubkey>): set<Pair> {
    set p | p in versions && p.0 in keys && !IsNewest(versions, p)
  }

  /** Every key with a version has exactly one newest version, and its slot is above those of the others. */
  lemma OneNewest(versions: Versions, k: Pubkey)
    requires exists x: Slot :: (k, x) in versions
    ensures exists n: Slot ::
      && (k, n) in NewestOf(versions) && (k, n) in versions
      && forall x: Slot | (k, x) in versions && x != n :: x < n && (k, x) !in NewestOf(versions)
  {
    var x: Slot :| (k, x) in versions;
    var slots := set p | p in versions && p.0 == k :: p.1;
    assert (k, x).1 in slots;
    var n := Sets.MaxOf(slots);
    var p :| p in versions && p.0 == k && p.1 == n;
    assert p == (k, n);
    forall y: Slot | (k, y) in versions ensures y <= n { assert (k, y).1 in slots; }
    forall q | q in versions && q.0 == k ensures q.1 <= n { assert q == (k, q.1); }
    assert forall y: Slot | (k, y) in versions && y != n :: (k, n).1 > (k, y).1;
  }

  /** The duplicates of the keys are the versions with a newer one. */
  lemma OlderHaveNewer(versions: Versions, keys: set<Pubkey>)
    ensures OlderOf(versions, keys) ==
      set p | p in versions && p.0 in keys && exists q | q in versions :: q.0 == p.0 && q.1 > p.1
  {}

  /** Each element of the set exactly once, in some order. */
  ghost predicate Enumerates<T>(s: seq<T>, all: set<T>) {
    multiset(s) == multiset(all)
  }

  lemma EnumeratesUnion<T>(a: seq<T>, sa: set<T>, b: seq<T>, sb: set<T>)
    requires Enumerates(a, sa) && Enumerates(b, sb) && sa !! sb
    ensures Enumerates(a + b, sa + sb)
  {
    assert multiset(sa + sb) == multiset(sa) + multiset(sb);
  }

  lemma EnumeratesOne<T>(x: T)
    ensures Enumerates([x], {x})
  {}

  function KeySet(keys: seq<Pubkey>): set<Pubkey> {
    set k | k in keys
  }

  /** Visits the duplicates of some keys: all their versions but the newest. */
  method VisitDuplicates<G(!new)>(g: Group<G>, f: Pair -> G, versions: Versions, keys: seq<Pubkey>) returns (sum: G)
    requires Abelian(g) && forall i, j :: 0 <= i < j < |keys| ==> keys[i] != keys[j]
    ensures IsSumOver(g, f, OlderOf(versions, KeySet(keys)), sum)
    ensures IsSumOver(g, f,
      (set p | p in versions && p.0 in keys && exists q | q in versions :: q.0 == p.0 && q.1 > p.1), sum)
  {
    OlderHaveNewer(versions, KeySet(keys));
    sum := g.zero;
    ghost var done: set<Pubkey> := {};
    ghost var visited: seq<Pair> := [];
    assert OlderOf(versions, {}) == {};
    for i := 0 to |keys|
      invariant done == KeySet(keys[..i])
      invariant Enumerates(visited, OlderOf(versions, done)) && sum == SumOf(g, f, visited)
    {
      assert keys[..i + 1] == keys[..i] + [keys[i]];
      assert keys[i] !in done;
      sum, visited := VisitKey(g, f, versions, keys[i], sum, visited, done);
      done := done + {keys[i]};
    }
    assert keys[..|keys|] == keys;
    SumInAnyOrder(g, f, OlderOf(versions, KeySet(keys)), visited);
    assert OlderOf(versions, KeySet(keys)) ==
      set p | p in versions && p.0 in keys && exists q | q in versions :: q.0 == p.0 && q.1 > p.1;
  }

  method VisitKey<G(!new)>(g: Group<G>, f: Pair -> G, versions: Versions, key: Pubkey, before: G,
                    ghost visitedBefore: seq<Pair>,
                           ghost done: set<Pubkey>)
    returns (sum: G, ghost visited: seq<Pair>)
    requires Abelian(g) && key !in done
    requires Enumerates(visitedBefore, OlderOf(versions, done)) && before == SumOf(g, f, visitedBefore)
    ensures Enumerates(visited, OlderOf(versions, done + {key})) && sum == SumOf(g, f, visited)
  {
    hide Enumerates;
    sum, visited := before, visitedBefore;
    var slots := set p | p in versions && p.0 == key;
    var todo := slots;
    ghost var seen: set<Pair> := OlderOf(versions, done);
    while todo != {}
      invariant todo <= slots && seen == OlderOf(versions, done) + (OlderOf(versions, {key}) - todo)
      invariant Enumerates(visited, seen) && sum == SumOf(g, f, visited)
      decreases todo
    {
      var p :| p in todo;
      todo := todo - {p};
      if !IsNewest(versions, p) {
        EnumeratesOne(p);
        EnumeratesUnion(visited, seen, [p], {p});
        assert (visited + [p])[..|visited|] == visited;
        sum := g.add(sum, f(p));
        visited := visited + [p];
        seen := seen + {p};
      }
    }
    assert seen == OlderOf(versions, done + {key});
  }

  // ---------------------------------------------------------------- the totals

  /** The keys with more than one version. */
  function DuplicateKeys(versions: Versions): set<Pubkey> {
    set p | p in versions && !IsNewest(versions, p) :: p.0
  }

  lemma DuplicatesHaveTwo(versions: Versions, k: Pubkey)
    ensures k in DuplicateKeys(versions) <==>
      exists x: Slot, y: Slot :: (k, x) in versions && (k, y) in versions && x < y
  {
    if k in DuplicateKeys(versions) {
      var p :| p in versions && p.0 == k && !IsNewest(versions, p);
      var q :| q in versions && q.0 == k && q.1 > p.1;
      assert p == (k, p.1) && q == (k, q.1);
    }
    if x: Slot, y: Slot :| (k, x) in versions && (k, y) in versions && x < y {
      assert !IsNewest(versions, (k, x)) && (k, x).0 == k;
    }
  }

  lemma AllVersions(versions: Versions)
    ensures versions.Keys == NewestOf(versions) + OlderOf(versions, DuplicateKeys(versions))
    ensures NewestOf(versions) !! OlderOf(versions, DuplicateKeys(versions))
  {}

  /** The chunks have their keys apart. */
  ghost predicate ChunksApart(chunks: seq<seq<Pubkey>>) {
    forall i, j :: 0 <= i < j < |Flatten(chunks)| ==> Flatten(chunks)[i] != Flatten(chunks)[j]
  }

  lemma ChunkApart(chunks: seq<seq<Pubkey>>, i: nat)
    requires i < |chunks| && ChunksApart(chunks[..i + 1])
    ensures Flatten(chunks[..i + 1]) == Flatten(chunks[..i]) + chunks[i] && ChunksApart(chunks[..i])
    ensures forall a, b :: 0 <= a < b < |chunks[i]| ==> chunks[i][a] != chunks[i][b]
    ensures KeySet(Flatten(chunks[..i])) !! KeySet(chunks[i])
  {
    assert chunks[..i + 1][..i] == chunks[..i];
    var a, b, all := Flatten(chunks[..i]), chunks[i], Flatten(chunks[..i + 1]);
    assert all == a + b;
    forall x, y | 0 <= x < y < |a| ensures a[x] != a[y] { assert all[x] == a[x] && all[y] == a[y]; }
    forall x, y | 0 <= x < y < |b| ensures b[x] != b[y] { assert all[|a| + x] == b[x] && all[|a| + y] == b[y]; }
    forall x, y | 0 <= x < |a| && 0 <= y < |b| ensures a[x] != b[y] { assert all[x] == a[x] && all[|a| + y] == b[y]; }
  }

  lemma {:induction false} PrefixApart(chunks: seq<seq<Pubkey>>, i: nat)
    requires i <= |chunks| && ChunksApart(chunks)
    ensures ChunksApart(chunks[..i])
    decreases |chunks| - i
  {
    if i == |chunks| {
      assert chunks[..i] == chunks;
    } else {
      PrefixApart(chunks, i + 1);
      ChunkApart(chunks, i);
    }
  }

  lemma OlderOfUnion(versions: Versions, a: set<Pubkey>, b: set<Pubkey>)
    requires a !! b
    ensures OlderOf(versions, a + b) == OlderOf(versions, a) + OlderOf(versions, b)
    ensures OlderOf(versions, a) !! OlderOf(versions, b)
  {}

  /** `sum` is the sum over the set, in whatever order. */
  ghost predicate IsSumOver<G(!new), T(!new)>(g: Group<G>, f: T -> G, all: set<T>, sum: G) {
    forall order | Enumerates(order, all) :: sum == SumOf(g, f, order)
  }

  lemma SumInAnyOrder<G(!new), T(!new)>(g: Group<G>, f: T -> G, all: set<T>, order: seq<T>)
    requires Abelian(g) && Enumerates(order, all)
    ensures IsSumOver(g, f, all, SumOf(g, f, order))
  {
    forall other | Enumerates(other, all) ensures SumOf(g, f, order) == SumOf(g, f, other) {
      SumPermuted(g, f, order, other);
    }
  }

  lemma {:induction false} HasOrder<T>(all: set<T>) returns (order: seq<T>)
    ensures Enumerates(order, all)
    decreases all
  {
    if all == {} {
      order := [];
    } else {
      var x :| x in all;
      var rest := HasOrder(all - {x});
      order := rest + [x];
      EnumeratesOne(x);
      EnumeratesUnion(rest, all - {x}, [x], {x});
      assert all - {x} + {x} == all;
    }
  }

  /** Visits the duplicates chunk by chunk and adds up the partial sums. */
  method VisitChunks<G(!new)>(g: Group<G>, f: Pair -> G, versions: Versions, chunks: seq<seq<Pubkey>>) returns (sum: G)
    requires Abelian(g) && ChunksApart(chunks)
    ensures IsSumOver(g, f, OlderOf(versions, KeySet(Flatten(chunks))), sum)
    ensures IsSumOver(g, f,
      (set p | p in versions && p.0 in Flatten(chunks) && exists q | q in versions :: q.0 == p.0 && q.1 > p.1), sum)
  {
    sum := g.zero;
    ghost var visited: seq<Pair> := [];
    assert OlderOf(versions, {}) == {} && KeySet(Flatten(chunks[..0])) == {};
    for i := 0 to |chunks|
      invariant Enumerates(visited, OlderOf(versions, KeySet(Flatten(chunks[..i])))) && sum == SumOf(g, f, visited)
    {
      hide Enumerates, OlderOf, SumOf, Abelian, ChunksApart, Flatten;
      PrefixApart(chunks, i + 1);
      ChunkApart(chunks, i);
      ghost var before, own := KeySet(Flatten(chunks[..i])), KeySet(chunks[i]);
      var part := VisitDuplicates(g, f, versions, chunks[i]);
      ghost var more := HasOrder(OlderOf(versions, own));
      assert KeySet(Flatten(chunks[..i + 1])) == before + own;
      OlderOfUnion(versions, before, own);
      EnumeratesUnion(visited, OlderOf(versions, before), more, OlderOf(versions, own));
      SumConcat(g, f, visited, more);
      sum, visited := g.add(sum, part), visited + more;
    }
    assert chunks[..|chunks|] == chunks;
    SumInAnyOrder(g, f, OlderOf(versions, KeySet(Flatten(chunks))), visited);
    OlderHaveNewer(versions, KeySet(Flatten(chunks)));
    assert OlderOf(versions, KeySet(Flatten(chunks))) ==
      set p | p in versions && p.0 in Flatten(chunks) && exists q | q in versions :: q.0 == p.0 && q.1 > p.1;
  }

  /** Adds every version as the threads scan their storages, then takes out the duplicates chunk by chunk. The result
      is the sum over the newest versions in any order, which is what a walk over the index adds up. */
  method GenerateIndex<G(!new)>(g: Group<G>, f: Pair -> G, versions: Versions, threads: seq<seq<Pair>>,
                         chunks: seq<seq<Pubkey>>)
    returns (total: G)
    requires Abelian(g)
    requires Enumerates(Flatten(threads), versions.Keys) && Enumerates(Flatten(chunks), DuplicateKeys(versions))
    ensures IsSumOver(g, f, NewestOf(versions), total)
    ensures IsSumOver(g, f, (set p | p in versions && forall q | q in versions && q.0 == p.0 :: q.1 <= p.1), total)
  {
    assert NewestOf(versions) == set p | p in versions && forall q | q in versions && q.0 == p.0 :: q.1 <= p.1;
    var all := SumParts(g, f, threads);
    EnumeratesDistinct(Flatten(chunks), DuplicateKeys(versions));
    var older := VisitChunks(g, f, versions, chunks);
    total := g.sub(all, older);
    ghost var visited := HasOrder(OlderOf(versions, DuplicateKeys(versions)));
    forall walk | Enumerates(walk, NewestOf(versions)) ensures total == SumOf(g, f, walk) {
      NewestRemain(g, f, versions, Flatten(threads), walk, visited);
    }
  }

  // ---------------------------------------------------------------- lamports

  const LAMPORTS: Group<int> := Group(0, (a: int, b: int) => a + b, (a: int, b: int) => a - b)

  lemma {:induction false} SumIsNatural<T>(f: T -> int, s: seq<T>)
    requires forall x | x in s :: f(x) >= 0
    ensures SumOf(LAMPORTS, f, s) >= 0
  {
    if s != [] { SumIsNatural(f, s[..|s| - 1]); }
  }

  lemma NewestAmong(versions: Versions, walk: seq<Pair>)
    requires Enumerates(walk, NewestOf(versions))
    ensures forall p | p in walk :: p in versions
  {
    forall p | p in walk ensures p in versions { assert p in multiset(walk); }
  }

  /** Taking the duplicates out of the capitalization does not underflow. */
  lemma CapitalizationDoesNotUnderflow(f: Pair -> int, versions: Versions, all: seq<Pair>, walk: seq<Pair>,
                                       older: seq<Pair>)
    requires forall p | p in versions :: f(p) >= 0
    requires Enumerates(all, versions.Keys) && Enumerates(walk, NewestOf(versions))
    requires Enumerates(older, OlderOf(versions, DuplicateKeys(versions)))
    ensures SumOf(LAMPORTS, f, older) <= SumOf(LAMPORTS, f, all)
  {
    hide Enumerates, SumOf, OlderOf;
    NewestRemain(LAMPORTS, f, versions, all, walk, older);
    NewestAmong(versions, walk);
    SumIsNatural(f, walk);
  }

  lemma NewestRemain<G(!new)>(g: Group<G>, f: Pair -> G, versions: Versions, all: seq<Pair>, walk: seq<Pair>,
                       older: seq<Pair>)
    requires Abelian(g) && Enumerates(all, versions.Keys)
    requires Enumerates(walk, NewestOf(versions)) && Enumerates(older, OlderOf(versions, DuplicateKeys(versions)))
    ensures g.sub(SumOf(g, f, all), SumOf(g, f, older)) == SumOf(g, f, walk)
  {
    AllVersions(versions);
    EnumeratesUnion(walk, NewestOf(versions), older, OlderOf(versions, DuplicateKeys(versions)));
    SumPermuted(g, f, all, walk + older);
    SumConcat(g, f, walk, older);
  }

  lemma EnumeratesDistinct<T>(s: seq<T>, all: set<T>)
    requires Enumerates(s, all)
    ensures (forall i, j :: 0 <= i < j < |s| ==> s[i] != s[j]) && (set x | x in s) == all
  {
    forall i, j | 0 <= i < j < |s| ensures s[i] != s[j] {
      var l, m, r := s[..i], s[i + 1..j], s[j + 1..];
      assert s == l + [s[i]] + m + [s[j]] + r;
      assert multiset(all)[s[i]] <= 1;
      assert s[i] == s[j] ==> multiset(s)[s[i]] >= 2;
    }
    forall x ensures x in s <==> x in all { assert x in multiset(s) <==> x in multiset(all); }
  }
}
