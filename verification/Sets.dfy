/** Sizes and maxima of finite sets. */
module Sets {

  lemma SubsetSize<T>(a: set<T>, b: set<T>)
    requires a <= b
    ensures |a| <= |b|
  {
    assert b == a + (b - a);
  }

  lemma SameSize<T>(a: set<T>, b: set<T>)
    requires a <= b && |a| == |b|
    ensures a == b
  {
    assert b == a + (b - a);
  }

  lemma {:induction false} MaxOf(s: set<nat>) returns (m: nat)
    requires s != {}
    ensures m in s && forall x | x in s :: x <= m
    decreases s
  {
    var y :| y in s;
    m := y;
    if s != {y} {
      var n := MaxOf(s - {y});
      if n > y { m := n; }
      forall x | x in s ensures x <= m { assert x == y || x in s - {y}; }
    }
  }

  lemma HasHighest(s: set<nat>)
    requires s != {}
    ensures exists m :: m in s && forall x | x in s :: x <= m
  {
    var m := MaxOf(s);
    assert m in s && forall x | x in s :: x <= m;
  }

  /** Distinct elements of a set are at most as many as the set has, and all of them if as many. */
  lemma {:induction false} Pigeonhole<T>(s: seq<T>, all: set<T>)
    requires (forall i :: 0 <= i < |s| ==> s[i] in all) && forall i, j :: 0 <= i < j < |s| ==> s[i] != s[j]
    ensures |s| <= |all| && (|s| == |all| ==> forall v | v in all :: v in s)
    decreases |s|
  {
    if s != [] {
      var front, last := s[..|s| - 1], s[|s| - 1];
      forall i | 0 <= i < |front| ensures front[i] in all - {last} { assert front[i] == s[i]; }
      Pigeonhole(front, all - {last});
      if |s| == |all| {
        forall v | v in all ensures v in s { assert v == last || v in front; }
      }
    } else if |all| == 0 {
      assert all == {};
    }
  }
}
