/**
 Ordering the crates of the workspace for publishing: dependencies first, or an error if there is a cycle.
 */
module CrateOrder {
  import Sets

  type Package = nat
  type Graph = map<Package, set<Package>>

  datatype Outcome = Ordered(order: seq<Package>) | DirectCycle | SuspectedCycle

  // ---------------------------------------------------------------- cycles

  predicate Depends(graph: Graph, p: Package, q: Package) {
    p in graph && q in graph && q in graph[p]
  }

  ghost predicate IsCycle(graph: Graph, path: seq<Package>) {
    |path| >= 2 && path[0] == path[|path| - 1] && IsWalk(graph, path)
  }

  ghost predicate Acyclic(graph: Graph) {
    forall path :: !IsCycle(graph, path)
  }

  ghost predicate HasNext(graph: Graph, left: set<Package>, p: Package) {
    exists q :: q in left && Depends(graph, p, q)
  }

  /** Every package of the set depends on one of the set. */
  ghost predicate Stuck(graph: Graph, left: set<Package>) {
    forall p {:trigger HasNext(graph, left, p)} | p in left :: HasNext(graph, left, p)
  }

  ghost predicate IsWalk(graph: Graph, path: seq<Package>) {
    forall i :: 0 <= i < |path| - 1 ==> Depends(graph, path[i], path[i + 1])
  }

  lemma {:induction false} HasWalk(graph: Graph, stuck: set<Package>, n: nat) returns (path: seq<Package>)
    requires Stuck(graph, stuck) && stuck != {} && n > 0
    ensures |path| == n && IsWalk(graph, path) && forall i :: 0 <= i < n ==> path[i] in stuck
    decreases n
  {
    if n == 1 {
      var p :| p in stuck;
      path := [p];
    } else {
      var front := HasWalk(graph, stuck, n - 1);
      assert HasNext(graph, stuck, front[n - 2]);
      var q :| q in stuck && Depends(graph, front[n - 2], q);
      path := front + [q];
      forall i | 0 <= i < |path| - 1 ensures Depends(graph, path[i], path[i + 1]) {
        if i < n - 2 { assert Depends(graph, front[i], front[i + 1]); }
      }
    }
  }

  /** A path longer than the set it stays in meets a package twice. */
  lemma MeetsTwice(path: seq<Package>, all: set<Package>)
    requires (forall i :: 0 <= i < |path| ==> path[i] in all) && |path| > |all|
    ensures exists i, j :: 0 <= i < j < |path| && path[i] == path[j]
  {
    if forall i, j :: 0 <= i < j < |path| ==> path[i] != path[j] { Sets.Pigeonhole(path, all); }
  }

  /** A stuck set has a cycle. */
  lemma StuckHasCycle(graph: Graph, stuck: set<Package>)
    requires Stuck(graph, stuck) && stuck != {}
    ensures !Acyclic(graph)
  {
    var path := HasWalk(graph, stuck, |stuck| + 1);
    MeetsTwice(path, stuck);
    var i, j :| 0 <= i < j < |path| && path[i] == path[j];
    var cycle := path[i..j + 1];
    forall k | 0 <= k < |cycle| - 1 ensures Depends(graph, cycle[k], cycle[k + 1]) {
      assert Depends(graph, path[i + k], path[i + k + 1]);
    }
    assert IsCycle(graph, cycle);
  }

  // ---------------------------------------------------------------- an order

  ghost predicate Distinct(order: seq<Package>) {
    forall i, j :: 0 <= i < j < |order| ==> order[i] != order[j]
  }

  /** Every dependency within the workspace comes first. */
  ghost predicate DependenciesFirst(graph: Graph, order: seq<Package>) {
    forall i, q | 0 <= i < |order| && Depends(graph, order[i], q) :: q in order[..i]
  }

  ghost predicate IsOrder(graph: Graph, order: seq<Package>) {
    Distinct(order) && (forall p :: p in order <==> p in graph) && DependenciesFirst(graph, order)
  }

  /** An ordered graph has no cycle: along a dependency the position goes down. */
  lemma OrderedIsAcyclic(graph: Graph, order: seq<Package>)
    requires IsOrder(graph, order)
    ensures Acyclic(graph)
  {
    forall path | |path| >= 2 && IsWalk(graph, path) ensures path[0] != path[|path| - 1] {
      assert Depends(graph, path[0], path[1]);
      var i :| 0 <= i < |order| && order[i] == path[0];
      DescendsAlong(graph, order, path, i, |path| - 1);
      var j :| 0 <= j < i && order[j] == path[|path| - 1];
    }
  }

  lemma {:induction false} DescendsAlong(graph: Graph, order: seq<Package>, path: seq<Package>, i: nat, k: nat)
    requires DependenciesFirst(graph, order) && IsWalk(graph, path) && 0 < k < |path| && i < |order| &&
      order[i] == path[0]
    ensures path[k] in order[..i]
    decreases k
  {
    if k == 1 {
      assert Depends(graph, order[i], path[1]);
    } else {
      DescendsAlong(graph, order, path, i, k - 1);
      var j :| 0 <= j < i && order[j] == path[k - 1];
      assert Depends(graph, path[k - 1], path[k - 1 + 1]);
      assert path[k] in order[..j];
      var l :| 0 <= l < j && order[l] == path[k];
      assert order[..i][l] == path[k];
    }
  }

  // ---------------------------------------------------------------- the script

  /** Do two packages, or one with itself, depend on each other directly? */
  ghost predicate HasDirectCycle(graph: Graph) {
    exists p, q :: Depends(graph, p, q) && Depends(graph, q, p)
  }

  method FindDirectCycle(graph: Graph) returns (found: bool)
    ensures found <==> HasDirectCycle(graph)
  {
    var todo := graph.Keys;
    while todo != {}
      invariant todo <= graph.Keys
      invariant forall p, q | p in graph && p !in todo :: !(Depends(graph, p, q) && Depends(graph, q, p))
      decreases todo
    {
      var p :| p in todo;
      todo := todo - {p};
      var deps := graph[p];
      while deps != {}
        invariant deps <= graph[p]
        invariant forall q | q in graph[p] && q !in deps :: !Depends(graph, q, p)
        decreases deps
      {
        var q :| q in deps;
        deps := deps - {q};
        if q in graph && p in graph[q] {
          assert Depends(graph, p, q) && Depends(graph, q, p);
          return true;
        }
      }
    }
    found := false;
  }

  /** None of the package's dependencies is left. */
  predicate Ready(left: Graph, p: Package) {
    p in left ==> forall q | q in left[p] :: q !in left
  }

  /** One pass over the packages that are left: those whose dependencies are all gone are next. */
  method Pass(graph: Graph, left: Graph, order: seq<Package>) returns (deleted: set<Package>, longer: seq<Package>)
    requires forall p | p in left :: p in graph && left[p] == graph[p]
    requires forall p :: p in order <==> p in graph && p !in left
    requires Distinct(order) && DependenciesFirst(graph, order)
    ensures forall p :: p in deleted <==> p in left && Ready(left, p)
    ensures Distinct(longer) && DependenciesFirst(graph, longer)
    ensures forall p :: p in longer <==> p in order || p in deleted
  {
    deleted, longer := {}, order;
    var todo := left.Keys;
    while todo != {}
      invariant todo <= left.Keys
      invariant forall p :: p in deleted <==> p in left && p !in todo && Ready(left, p)
      invariant forall p :: p in longer <==> p in order || p in deleted
      invariant Distinct(longer) && DependenciesFirst(graph, longer)
      invariant order <= longer
      decreases todo
    {
      var p :| p in todo;
      todo := todo - {p};
      if Ready(left, p) {
        Append(graph, longer, p);
        longer := longer + [p];
        deleted := deleted + {p};
      }
    }
  }

  lemma Append(graph: Graph, order: seq<Package>, p: Package)
    requires Distinct(order) && DependenciesFirst(graph, order) && p !in order
    requires forall q | Depends(graph, p, q) :: q in order
    ensures Distinct(order + [p]) && DependenciesFirst(graph, order + [p])
  {
    var longer := order + [p];
    forall i, q | 0 <= i < |longer| && Depends(graph, longer[i], q) ensures q in longer[..i] {
      assert longer[..i] == order[..i];
    }
  }

  /** The ordering after some passes: either every pass has taken a package, or what is left is stuck. */
  ghost predicate Ordering(graph: Graph, left: Graph, order: seq<Package>, passes: nat) {
    && (forall p | p in left :: p in graph && left[p] == graph[p])
    && (forall p :: p in order <==> p in graph && p !in left)
    && Distinct(order) && DependenciesFirst(graph, order)
    && (passes <= |graph| - |left| || Stuck(graph, left.Keys))
  }

  lemma OrderingNext(graph: Graph, left: Graph, order: seq<Package>, passes: nat, deleted: set<Package>,
                     longer: seq<Package>)
    requires Ordering(graph, left, order, passes)
    requires forall p :: p in deleted <==> p in left && Ready(left, p)
    requires Distinct(longer) && DependenciesFirst(graph, longer) && forall p :: p in longer <==>
      p in order || p in deleted
    ensures Ordering(graph, left - deleted, longer, passes + 1)
  {
    hide Stuck, Distinct, DependenciesFirst, Ready;
    if deleted == {} {
      assert left - deleted == left;
      forall p | p in left ensures !Ready(left, p) { assert p !in deleted; }
      NothingDeleted(graph, left);
    } else {
      SomethingDeleted(graph, left, deleted);
      Shrinks(left, deleted);
    }
  }

  /** The passes, at most as many as the square of the number of packages. */
  method OrderCrates(graph: Graph) returns (outcome: Outcome)
    ensures outcome.DirectCycle? <==> HasDirectCycle(graph)
    ensures outcome.Ordered? <==> Acyclic(graph)
    ensures outcome.Ordered? ==> IsOrder(graph, outcome.order) && |outcome.order| == |graph|
    ensures outcome.Ordered? ==> var order := outcome.order;
      forall i, q | 0 <= i < |order| && order[i] in graph && q in graph[order[i]] && q in graph :: q in order[..i]
  {
    hide Acyclic, HasDirectCycle, Distinct, DependenciesFirst, Stuck;
    var direct := FindDirectCycle(graph);
    if direct {
      DirectIsCycle(graph);
      return DirectCycle;
    }
    var order: seq<Package>, left, budget := [], graph, |graph| * |graph|;
    ghost var passes := 0;
    OrderingStarts(graph);
    while left != map[]
      invariant Ordering(graph, left, order, passes)
      invariant budget >= 0 && passes == |graph| * |graph| - budget
      decreases budget
    {
      if budget == 0 {
        BudgetIsGone(graph, left, order, passes);
        return SuspectedCycle;
      }
      budget := budget - 1;
      var deleted, longer := Pass(graph, left, order);
      OrderingNext(graph, left, order, passes, deleted, longer);
      passes := passes + 1;
      left, order := left - deleted, longer;
    }
    assert IsOrder(graph, order);
    OrderedIsAcyclic(graph, order);
    SameLength(order, graph.Keys);
    OrderMeans(graph, order);
    outcome := Ordered(order);
  }

  lemma OrderMeans(graph: Graph, order: seq<Package>)
    requires IsOrder(graph, order)
    ensures forall i, q | 0 <= i < |order| && order[i] in graph && q in graph[order[i]] && q in graph :: q in order[..i]
  {
    forall i, q | 0 <= i < |order| && order[i] in graph && q in graph[order[i]] && q in graph ensures q in order[..i] {
      assert Depends(graph, order[i], q);
    }
  }

  lemma OrderingStarts(graph: Graph)
    ensures Ordering(graph, graph, [], 0)
  {}

  /** If the budget runs out, what is left is stuck. */
  lemma BudgetIsGone(graph: Graph, left: Graph, order: seq<Package>, passes: nat)
    requires Ordering(graph, left, order, passes) && left != map[] && passes == |graph| * |graph|
    ensures !Acyclic(graph)
  {
    var p :| p in left;
    assert |left| == |left.Keys| && |graph| == |graph.Keys|;
    assert graph.Keys == left.Keys + (graph.Keys - left.Keys);
    BudgetSuffices(|graph|, |left|);
    StuckHasCycle(graph, left.Keys);
  }

  lemma DirectIsCycle(graph: Graph)
    requires HasDirectCycle(graph)
    ensures !Acyclic(graph)
  {
    var p, q :| Depends(graph, p, q) && Depends(graph, q, p);
    assert IsCycle(graph, [p, q, p]);
  }

  lemma BudgetSuffices(n: nat, left: nat)
    requires 0 < left <= n
    ensures n - left < n * n
  {}

  lemma NothingDeleted(graph: Graph, left: Graph)
    requires forall p | p in left :: p in graph && left[p] == graph[p]
    requires forall p {:trigger Ready(left, p)} | p in left :: !Ready(left, p)
    ensures Stuck(graph, left.Keys)
  {
    forall p | p in left.Keys ensures HasNext(graph, left.Keys, p) {
      assert !Ready(left, p);
      var q :| q in left[p] && q in left;
      assert q in left.Keys && Depends(graph, p, q);
    }
  }

  lemma SomethingDeleted(graph: Graph, left: Graph, deleted: set<Package>)
    requires forall p | p in left :: p in graph && left[p] == graph[p]
    requires forall p :: p in deleted <==> p in left && Ready(left, p)
    requires deleted != {}
    ensures !Stuck(graph, left.Keys)
  {
    var p :| p in deleted;
    assert Ready(left, p);
    assert p in left.Keys && !HasNext(graph, left.Keys, p);
  }

  lemma Shrinks(left: Graph, deleted: set<Package>)
    requires deleted != {} && deleted <= left.Keys
    ensures |left - deleted| < |left|
  {
    var rest := left - deleted;
    assert left.Keys == rest.Keys + deleted && |left| == |left.Keys| && |rest| == |rest.Keys|;
  }

  lemma {:induction false} SameLength(order: seq<Package>, all: set<Package>)
    requires Distinct(order) && forall p :: p in order <==> p in all
    ensures |order| == |all|
    decreases |order|
  {
    if order == [] {
      assert all == {};
    } else {
      var front, last := order[..|order| - 1], order[|order| - 1];
      forall p ensures p in front <==> p in all - {last} {
        if p in front { var i :| 0 <= i < |front| && front[i] == p; assert order[i] == p; }
        if p in all && p != last { var i :| 0 <= i < |order| && order[i] == p; assert front[i] == p; }
      }
      SameLength(front, all - {last});
      assert last in all;
    }
  }
}
