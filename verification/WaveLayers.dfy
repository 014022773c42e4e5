/**
 What layered peeling computes: the layers are the depths of the tasks, and the tasks left
 over are exactly those that reach a cycle or an unknown id.
 */
module WaveLayers {
  import opened Ids
  import opened Graphs
  import opened WaveKahn

  ghost predicate InLayer(layers: seq<set<Id>>, k: int, x: Id) {
    0 <= k < |layers| && x in layers[k]
  }

  /** Every node peeled from `rem` sits in one layer, and the rest is left over. */
  lemma {:induction false} PeelPartitions(g: Graph, rem: set<Id>)
    ensures Leftover(g, rem) <= rem
    ensures forall k, x :: InLayer(Peel(g, rem), k, x) ==> x in rem && x in g && x !in Leftover(g, rem)
    ensures forall x :: x in rem && x !in Leftover(g, rem) ==> exists k :: InLayer(Peel(g, rem), k, x)
    ensures forall j, k, x :: InLayer(Peel(g, rem), j, x) && InLayer(Peel(g, rem), k, x) ==> j == k
    ensures forall k :: 0 <= k < |Peel(g, rem)| ==> Peel(g, rem)[k] != {}
    decreases rem
  {
    var r := Ready(g, rem);
    if r != {} {
      var L, L' := Peel(g, rem), Peel(g, rem - r);
      PeelPartitions(g, rem - r);
      assert forall k, x :: InLayer(L, k, x) ==> (k == 0 && x in r) || (k > 0 && InLayer(L', k - 1, x));
      forall x | x in rem && x !in Leftover(g, rem) ensures exists k :: InLayer(L, k, x) {
        if x in r {
          assert InLayer(L, 0, x);
        } else {
          var k :| InLayer(L', k, x);
          assert InLayer(L, k + 1, x);
        }
      }
    }
  }

  /** A dependency of a peeled node was peeled before `rem`, or sits in an earlier layer. */
  lemma {:induction false} PeelDependencies(g: Graph, rem: set<Id>, k: nat, x: Id, y: Id)
    requires rem <= g.Keys && InLayer(Peel(g, rem), k, x) && Edge(g, x, y)
    ensures y in g && (y in rem ==> exists j :: 0 <= j < k && InLayer(Peel(g, rem), j, y))
    decreases rem
  {
    var r := Ready(g, rem);
    var L, L' := Peel(g, rem), Peel(g, rem - r);
    if k > 0 {
      assert InLayer(L', k - 1, x);
      PeelDependencies(g, rem - r, k - 1, x, y);
      if y in r {
        assert InLayer(L, 0, y);
      } else if y in rem {
        var j :| 0 <= j < k - 1 && InLayer(L', j, y);
        assert InLayer(L, j + 1, y);
      }
    }
  }

  /** A node misses a layer only because of a dependency in the layer just before its own. */
  lemma {:induction false} PeelIsTight(g: Graph, rem: set<Id>, k: nat, x: Id)
    requires rem <= g.Keys && InLayer(Peel(g, rem), k, x) && k > 0
    ensures exists y :: Edge(g, x, y) && InLayer(Peel(g, rem), k - 1, y)
    decreases rem
  {
    var r := Ready(g, rem);
    var L, L' := Peel(g, rem), Peel(g, rem - r);
    assert InLayer(L', k - 1, x);
    if k == 1 {
      assert x in Ready(g, rem - r);
      assert x !in r;
      var y :| y in g[x] && y !in g.Keys - rem;
      assert Edge(g, x, y);
      assert y in g.Keys - (rem - r);
      assert InLayer(L, 0, y);
    } else {
      PeelIsTight(g, rem - r, k - 1, x);
      var y :| Edge(g, x, y) && InLayer(L', k - 2, y);
      assert InLayer(L, k - 1, y);
    }
  }

  lemma {:induction false} LeftoverIsStuck(g: Graph, rem: set<Id>)
    requires rem <= g.Keys
    ensures Stuck(g, Leftover(g, rem))
    decreases rem
  {
    var r := Ready(g, rem);
    if r == {} {
      forall x | x in rem ensures exists y :: Edge(g, x, y) && (y !in g || y in rem) {
        assert x !in r;
        var y :| y in g[x] && y !in g.Keys - rem;
        assert Edge(g, x, y);
      }
    } else {
      LeftoverIsStuck(g, rem - r);
    }
  }

  ghost function Layers(g: Graph): seq<set<Id>> {
    Peel(g, g.Keys)
  }

  ghost function Unscheduled(g: Graph): set<Id> {
    Leftover(g, g.Keys)
  }

  ghost function LayerOf(g: Graph, x: Id): (k: nat)
    requires x in g && x !in Unscheduled(g)
    ensures InLayer(Layers(g), k, x)
  {
    PeelPartitions(g, g.Keys);
    var k: nat :| InLayer(Layers(g), k, x);
    k
  }

  ghost function LayerRank(g: Graph): map<Id, nat> {
    map x | x in g.Keys - Unscheduled(g) :: LayerOf(g, x)
  }

  lemma LayerOfUnique(g: Graph, k: int, x: Id)
    requires InLayer(Layers(g), k, x)
    ensures x in g && x !in Unscheduled(g) && LayerOf(g, x) == k
  {
    PeelPartitions(g, g.Keys);
  }

  lemma DependencyRanksLower(g: Graph, x: Id, y: Id)
    requires x in g && x !in Unscheduled(g) && Edge(g, x, y)
    ensures y in g && y !in Unscheduled(g) && LayerOf(g, y) < LayerOf(g, x)
  {
    PeelDependencies(g, g.Keys, LayerOf(g, x), x, y);
    var j :| 0 <= j < LayerOf(g, x) && InLayer(Layers(g), j, y);
    LayerOfUnique(g, j, y);
  }

  lemma SomeDependencyJustBelow(g: Graph, x: Id)
    requires x in g && x !in Unscheduled(g) && LayerOf(g, x) > 0
    ensures exists y :: y in g[x] && y in g && y !in Unscheduled(g) && LayerOf(g, y) == LayerOf(g, x) - 1
  {
    PeelIsTight(g, g.Keys, LayerOf(g, x), x);
    var y :| Edge(g, x, y) && InLayer(Layers(g), LayerOf(g, x) - 1, y);
    LayerOfUnique(g, LayerOf(g, x) - 1, y);
  }

  lemma LayerRankRanks(g: Graph)
    ensures Ranked(g, g.Keys - Unscheduled(g), LayerRank(g))
    ensures Tight(g, g.Keys - Unscheduled(g), LayerRank(g))
  {
    forall x, y | x in g.Keys - Unscheduled(g) && y in g[x]
      ensures y in g && y !in Unscheduled(g) && LayerOf(g, y) < LayerOf(g, x)
    {
      assert Edge(g, x, y);
      DependencyRanksLower(g, x, y);
    }
    forall x | x in g.Keys - Unscheduled(g) && LayerOf(g, x) > 0
      ensures exists y :: y in g[x] && y in LayerRank(g) && LayerRank(g)[y] == LayerOf(g, x) - 1
    {
      SomeDependencyJustBelow(g, x);
    }
  }

  /** The unscheduled tasks are exactly those that reach a cycle or an unknown id. */
  lemma UnscheduledIffDoomed(g: Graph, x: Id)
    requires x in g
    ensures x in Unscheduled(g) <==> Doomed(g, x)
  {
    if x in Unscheduled(g) {
      LeftoverIsStuck(g, g.Keys);
      StuckIsDoomed(g, Unscheduled(g), x);
    } else {
      LayerRankRanks(g);
      RankedIsNotDoomed(g, g.Keys - Unscheduled(g), LayerRank(g), x);
    }
  }

  /** A task's layer is the length of its longest `depends_on` chain. */
  lemma LayerIffDepth(g: Graph, x: Id, k: nat)
    requires x in g
    ensures InLayer(Layers(g), k, x) <==> !Doomed(g, x) && IsDepth(g, x, k)
  {
    UnscheduledIffDoomed(g, x);
    PeelPartitions(g, g.Keys);
    if !Doomed(g, x) {
      LayerRankRanks(g);
      TightRankIsDepth(g, g.Keys - Unscheduled(g), LayerRank(g), x);
      if IsDepth(g, x, k) { DepthUnique(g, x, k, LayerOf(g, x)); }
    }
  }

  /** Every layering that puts dependencies lower puts a task at least as high as its layer. */
  lemma LayersAreFewest(g: Graph, level: map<Id, nat>, k: nat, x: Id)
    requires Ranked(g, g.Keys, level) && InLayer(Layers(g), k, x)
    ensures x in level && k <= level[x]
  {
    PeelPartitions(g, g.Keys);
    LayerIffDepth(g, x, k);
    var w :| Walk(g, w) && w[0] == x && |w| == k + 1;
    WalkDescends(g, g.Keys, level, w, 0, k);
  }

  /** Everything is scheduled exactly when there is no cycle and no dangling dependency. */
  lemma AllScheduledIff(g: Graph)
    ensures Unscheduled(g) == {} <==> !Cyclic(g) && !Dangling(g)
  {
    PeelPartitions(g, g.Keys);
    DoomedIffCyclicOrDangling(g);
    forall x | x in g ensures x in Unscheduled(g) <==> Doomed(g, x) { UnscheduledIffDoomed(g, x); }
  }

  /** The number of layers is the number of tasks on the longest chain. */
  lemma LayerCountIsLongestChain(g: Graph)
    requires Unscheduled(g) == {}
    ensures forall w :: Walk(g, w) && w[0] in g ==> |w| <= |Layers(g)|
    ensures g != map[] ==> exists w :: Walk(g, w) && w[0] in g && |w| == |Layers(g)|
  {
    PeelPartitions(g, g.Keys);
    forall w | Walk(g, w) && w[0] in g ensures |w| <= |Layers(g)| {
      LayerIffDepth(g, w[0], LayerOf(g, w[0]));
    }
    if g != map[] {
      var y :| y in g;
      assert InLayer(Layers(g), LayerOf(g, y), y);
      var last := |Layers(g)| - 1;
      var x :| x in Layers(g)[last];
      assert InLayer(Layers(g), last, x);
      LayerIffDepth(g, x, last);
    }
  }
}
