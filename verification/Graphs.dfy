/**
 Finite directed graphs whose edges may leave the known nodes, as `depends_on` lists do:
 walks, cycles, and the nodes that cannot be scheduled because some walk from them either
 revisits a node or leaves the graph.
 */
module Graphs {
  import opened Ids

  /** A node is known when it is a key; its successors may be unknown. */
  type Graph = map<Id, set<Id>>

  ghost predicate Edge(g: Graph, x: Id, y: Id) {
    x in g && y in g[x]
  }

  ghost predicate Walk(g: Graph, w: seq<Id>) {
    w != [] && forall i, j :: 0 <= i && j == i + 1 < |w| ==> Edge(g, w[i], w[j])
  }

  function Last<T>(s: seq<T>): T
    requires s != []
  {
    s[|s| - 1]
  }

  /** A closed walk, first node repeated at the end.  Every node on it is known. */
  ghost predicate IsCycle(g: Graph, w: seq<Id>) {
    Walk(g, w) && |w| >= 2 && w[0] == Last(w)
  }

  ghost predicate Cyclic(g: Graph) {
    exists w :: IsCycle(g, w)
  }

  ghost predicate DanglingAt(g: Graph, x: Id, y: Id) {
    Edge(g, x, y) && y !in g
  }

  ghost predicate Dangling(g: Graph) {
    exists x, y :: DanglingAt(g, x, y)
  }

  /** A walk that ends at an unknown id, or at a node it has already visited. */
  ghost predicate DoomedWalk(g: Graph, w: seq<Id>) {
    Walk(g, w) && (Last(w) !in g || Last(w) in w[..|w| - 1])
  }

  /** `x` reaches a cycle or an unknown id along the edges. */
  ghost predicate Doomed(g: Graph, x: Id) {
    exists w :: DoomedWalk(g, w) && w[0] == x
  }

  lemma WalkSlice(g: Graph, w: seq<Id>, i: nat, j: nat)
    requires Walk(g, w) && i < j <= |w|
    ensures Walk(g, w[i..j])
  {}

  lemma WalkSnoc(g: Graph, w: seq<Id>, y: Id)
    requires Walk(g, w) && Edge(g, Last(w), y)
    ensures Walk(g, w + [y])
  {}

  lemma {:induction false} DistinctBound(w: seq<Id>, R: set<Id>)
    requires Distinct(w) && Elements(w) <= R
    ensures |w| <= |R|
  {
    if w != [] {
      var n := |w| - 1;
      assert w[n] in Elements(w);
      forall x | x in Elements(w[..n]) ensures x in R - {w[n]} {
        var i :| 0 <= i < n && w[i] == x;
        assert x in Elements(w);
      }
      DistinctBound(w[..n], R - {w[n]});
    }
  }

  /** A set in which every node has a successor that is unknown or again in the set. */
  ghost predicate Stuck(g: Graph, R: set<Id>) {
    forall x :: x in R ==> x in g && exists y :: Edge(g, x, y) && (y !in g || y in R)
  }

  /** Pigeonhole: walking inside a stuck set leaves the graph or revisits a node. */
  lemma {:induction false} StuckWalk(g: Graph, R: set<Id>, w: seq<Id>)
    requires Stuck(g, R) && Walk(g, w) && Distinct(w) && Elements(w) <= R
    ensures exists v :: DoomedWalk(g, v) && v[0] == w[0]
    decreases |R| - |w|
  {
    DistinctBound(w, R);
    var x := Last(w);
    assert x in Elements(w);
    var y :| Edge(g, x, y) && (y !in g || y in R);
    var v := w + [y];
    WalkSnoc(g, w, y);
    assert v[..|v| - 1] == w && Last(v) == y;
    if y !in g || y in w {
      assert DoomedWalk(g, v);
    } else {
      assert forall z :: z in Elements(v) <==> z in Elements(w) || z == y;
      DistinctBound(v, R);
      StuckWalk(g, R, v);
    }
  }

  lemma StuckIsDoomed(g: Graph, R: set<Id>, x: Id)
    requires Stuck(g, R) && x in R
    ensures Doomed(g, x)
  {
    StuckWalk(g, R, [x]);
  }

  /** Ranks that fall strictly along every edge, all of which stay inside `S`. */
  ghost predicate Ranked(g: Graph, S: set<Id>, rank: map<Id, nat>) {
    forall x :: x in S ==>
      && x in g && x in rank
      && forall y :: y in g[x] ==> y in S && y in rank && rank[y] < rank[x]
  }

  lemma {:induction false} WalkDescends(g: Graph, S: set<Id>, rank: map<Id, nat>, w: seq<Id>, i: nat, j: nat)
    requires Ranked(g, S, rank) && Walk(g, w) && w[0] in S && i <= j < |w|
    ensures w[i] in S && w[j] in S && rank[w[j]] + (j - i) <= rank[w[i]]
    decreases j
  {
    if j > 0 {
      WalkDescends(g, S, rank, w, if i < j then i else i - 1, j - 1);
      assert Edge(g, w[j - 1], w[j]);
    }
  }

  lemma RankedIsNotDoomed(g: Graph, S: set<Id>, rank: map<Id, nat>, x: Id)
    requires Ranked(g, S, rank) && x in S
    ensures !Doomed(g, x)
  {
    forall w | DoomedWalk(g, w) && w[0] == x ensures false {
      var n := |w| - 1;
      WalkDescends(g, S, rank, w, 0, n);
      var i :| 0 <= i < n && w[..n][i] == Last(w);
      WalkDescends(g, S, rank, w, i, n);
    }
  }

  /** What dooms a graph: some node is doomed exactly when there is a cycle or a dangling edge. */
  lemma DoomedIffCyclicOrDangling(g: Graph)
    ensures (exists x :: x in g && Doomed(g, x)) <==> Cyclic(g) || Dangling(g)
  {
    if x :| x in g && Doomed(g, x) {
      var w :| DoomedWalk(g, w) && w[0] == x;
      var n := |w| - 1;
      if Last(w) !in g {
        assert DanglingAt(g, w[n - 1], w[n]);
      } else {
        var i :| 0 <= i < n && w[..n][i] == Last(w);
        assert IsCycle(g, w[i..]);
      }
    }
    if w :| IsCycle(g, w) {
      assert w[0] == w[..|w| - 1][0];
      assert Edge(g, w[0], w[1]);
      assert DoomedWalk(g, w);
    }
    if x, y :| DanglingAt(g, x, y) {
      var w := [x, y];
      assert DoomedWalk(g, w) && w[0] == x;
    }
  }

  /** `d` is the number of edges of the longest walk from `x`. */
  ghost predicate IsDepth(g: Graph, x: Id, d: nat) {
    && (forall w :: Walk(g, w) && w[0] == x ==> |w| <= d + 1)
    && (exists w :: Walk(g, w) && w[0] == x && |w| == d + 1)
  }

  lemma DepthUnique(g: Graph, x: Id, d: nat, e: nat)
    requires IsDepth(g, x, d) && IsDepth(g, x, e)
    ensures d == e
  {}

  /** Every node of positive rank has a successor exactly one rank lower. */
  ghost predicate Tight(g: Graph, S: set<Id>, rank: map<Id, nat>)
    requires Ranked(g, S, rank)
  {
    forall x :: x in S && rank[x] > 0 ==> exists y :: y in g[x] && rank[y] == rank[x] - 1
  }

  lemma {:induction false} LongestWalk(g: Graph, S: set<Id>, rank: map<Id, nat>, x: Id) returns (w: seq<Id>)
    requires Ranked(g, S, rank) && Tight(g, S, rank) && x in S
    ensures Walk(g, w) && w[0] == x && |w| == rank[x] + 1
    decreases rank[x]
  {
    if rank[x] == 0 {
      w := [x];
    } else {
      var y :| y in g[x] && rank[y] == rank[x] - 1;
      var v := LongestWalk(g, S, rank, y);
      w := [x] + v;
      forall i, j | 0 <= i && j == i + 1 < |w| ensures Edge(g, w[i], w[j]) {
        if i > 0 { assert w[i] == v[i - 1] && w[j] == v[j - 1]; }
      }
    }
  }

  /** A tight ranking ranks every node by its longest walk. */
  lemma TightRankIsDepth(g: Graph, S: set<Id>, rank: map<Id, nat>, x: Id)
    requires Ranked(g, S, rank) && Tight(g, S, rank) && x in S
    ensures IsDepth(g, x, rank[x])
  {
    var v := LongestWalk(g, S, rank, x);
    forall w | Walk(g, w) && w[0] == x ensures |w| <= rank[x] + 1 {
      WalkDescends(g, S, rank, w, 0, |w| - 1);
    }
  }

  // ---- what a depth-first search knows about the nodes it has finished ----

  ghost predicate Closed(g: Graph, B: set<Id>) {
    forall x, y :: x in B && Edge(g, x, y) && y in g ==> y in B
  }

  ghost predicate AcyclicOn(g: Graph, B: set<Id>) {
    forall w {:trigger IsCycle(g, w)} :: IsCycle(g, w) ==> !(Elements(w) <= B)
  }

  lemma {:induction false} ClosedWalk(g: Graph, B: set<Id>, w: seq<Id>, i: nat, j: nat)
    requires Closed(g, B) && Walk(g, w) && i <= j < |w| && w[i] in B && Last(w) in g
    ensures w[j] in B
    decreases j
  {
    if i < j {
      ClosedWalk(g, B, w, i, j - 1);
      assert Edge(g, w[j - 1], w[j]);
      assert j < |w| - 1 ==> Edge(g, w[j], w[j + 1]);
    }
  }

  /** A cycle inside `B` plus a node whose known successors lie in `B` misses that node. */
  lemma CycleMissesLast(g: Graph, B: set<Id>, n: Id, w: seq<Id>)
    requires Closed(g, B) && n !in B && forall y :: Edge(g, n, y) && y in g ==> y in B
    requires IsCycle(g, w) && Elements(w) <= B + {n}
    ensures Elements(w) <= B
  {
    assert forall i :: 0 <= i < |w| ==> w[i] in Elements(w);
    assert Edge(g, w[0], w[1]);
    if i :| 0 <= i < |w| - 1 && w[i] == n {
      assert Edge(g, w[i], w[i + 1]);
      assert i + 2 < |w| ==> Edge(g, w[i + 1], w[i + 2]);
      ClosedWalk(g, B, w, i + 1, |w| - 1);
      ClosedWalk(g, B, w, 0, i);
    }
  }

  /** Finishing a node whose known successors are all finished closes no cycle. */
  lemma FinishNode(g: Graph, B: set<Id>, n: Id)
    requires Closed(g, B) && AcyclicOn(g, B) && n in g && n !in B
    requires forall y :: y in g[n] && y in g ==> y in B
    ensures Closed(g, B + {n}) && AcyclicOn(g, B + {n})
  {
    forall w | IsCycle(g, w) ensures !(Elements(w) <= B + {n}) {
      if Elements(w) <= B + {n} {
        CycleMissesLast(g, B, n, w);
      }
    }
  }

  lemma AcyclicOnAll(g: Graph)
    requires AcyclicOn(g, g.Keys)
    ensures !Cyclic(g)
  {
    forall w | IsCycle(g, w) ensures false {
      assert Edge(g, w[0], w[1]);
      forall x | x in Elements(w) ensures x in g.Keys {
        var i :| 0 <= i < |w| && w[i] == x;
        assert i + 1 < |w| ==> Edge(g, w[i], w[i + 1]);
      }
    }
  }
}
