/**
 What a valid plan guarantees: an ordered partition of the tasks into waves that respects
 every dependency, with the number of waves in closed form; and that the plan does not
 depend on the order of the task list.
 */
module WavePlanTheorems {
  import opened Ids
  import opened Graphs
  import opened WaveTasks
  import opened WaveKahn
  import opened WaveLayers
  import opened WavePlan

  /** The tasks of all waves, in running order. */
  ghost function Flatten(waves: seq<Wave>): seq<Id> {
    if waves == [] then [] else Flatten(waves[..|waves| - 1]) + Last(waves).tasks
  }

  lemma {:induction false} FlattenConcat(a: seq<Wave>, b: seq<Wave>)
    ensures Flatten(a + b) == Flatten(a) + Flatten(b)
  {
    if b == [] {
      assert a + b == a;
    } else {
      FlattenConcat(a, b[..|b| - 1]);
      ConcatFront(a, b);
      ConcatAssociative(Flatten(a), Flatten(b[..|b| - 1]), Last(b).tasks);
    }
  }

  lemma {:induction false} FlattenMember(waves: seq<Wave>, x: Id)
    ensures x in Flatten(waves) <==> exists i :: 0 <= i < |waves| && x in waves[i].tasks
  {
    if waves != [] {
      FlattenMember(waves[..|waves| - 1], x);
      assert waves == waves[..|waves| - 1] + [Last(waves)];
    }
  }

  /** What one wave of a valid plan promises to the executor. */
  ghost predicate GoodWave(byId: Tasks, k: nat, w: Wave) {
    && 1 <= |w.tasks| <= k && w.parallelism == |w.tasks|
    && Distinct(w.tasks) && Known(byId, w.tasks)
    && w.writeSets.Keys == Elements(w.tasks)
    && (forall t :: t in w.writeSets && t in byId ==> w.writeSets[t] == Sorted(byId[t].files))
    && (forall i, j :: 0 <= i < j < |w.tasks| ==> byId[w.tasks[i]].files !! byId[w.tasks[j]].files)
    && (forall i :: 0 <= i < |w.tasks| && !byId[w.tasks[i]].parallelSafe ==> |w.tasks| == 1)
    && w.disjoint
    && (w.parallelSafeAll <==> forall i :: 0 <= i < |w.tasks| ==> byId[w.tasks[i]].parallelSafe)
  }

  ghost predicate GoodWaves(byId: Tasks, k: nat, waves: seq<Wave>) {
    forall i :: 0 <= i < |waves| ==> GoodWave(byId, k, waves[i])
  }

  /** Tasks that may share a wave: distinct, all parallel-safe, pairwise disjoint writes. */
  ghost predicate Group(byId: Tasks, group: seq<Id>) {
    && Known(byId, group) && Distinct(group)
    && (forall i :: 0 <= i < |group| ==> byId[group[i]].parallelSafe)
    && (forall i, j :: 0 <= i < j < |group| ==> byId[group[i]].files !! byId[group[j]].files)
  }

  /** The least number of chunks of at most `k` that hold `n` tasks. */
  ghost function CeilDiv(n: nat, k: nat): nat
    requires k >= 1
  {
    if n == 0 then 0 else if n <= k then 1 else 1 + CeilDiv(n - k, k)
  }

  lemma {:induction false} CeilDivIsCeiling(n: nat, k: nat)
    requires k >= 1
    ensures n <= CeilDiv(n, k) * k < n + k
  {
    if n > k {
      CeilDivIsCeiling(n - k, k);
      assert CeilDiv(n, k) * k == CeilDiv(n - k, k) * k + k;
    }
  }

  lemma GroupWave(byId: Tasks, group: seq<Id>, k: nat)
    requires Group(byId, group) && 1 <= |group| <= k
    ensures GoodWave(byId, k, WaveOf(group, byId, |group|))
  {}

  lemma GroupSlice(byId: Tasks, group: seq<Id>, i: nat)
    requires Group(byId, group) && i <= |group|
    ensures Group(byId, group[..i]) && Group(byId, group[i..])
  {}

  lemma {:induction false} ChunksGood(byId: Tasks, group: seq<Id>, k: nat)
    requires k >= 1 && Group(byId, group)
    ensures GoodWaves(byId, k, ChunkWaves(group, byId, k))
    ensures Flatten(ChunkWaves(group, byId, k)) == group
    ensures |ChunkWaves(group, byId, k)| == CeilDiv(|group|, k)
    decreases |group|
  {
    if |group| > k {
      ChunkSplits(byId, group, k);
      ChunksGood(byId, group[k..], k);
      TakeDrop(group, k);
    } else {
      ChunkFits(byId, group, k);
    }
  }

  lemma ChunkFits(byId: Tasks, group: seq<Id>, k: nat)
    requires |group| <= k && k >= 1 && Group(byId, group)
    ensures GoodWaves(byId, k, ChunkWaves(group, byId, k)) && Flatten(ChunkWaves(group, byId, k)) == group
    ensures |ChunkWaves(group, byId, k)| == CeilDiv(|group|, k)
  {
    if group != [] {
      GroupWave(byId, group, k);
      assert ChunkWaves(group, byId, k)[..0] == [];
    }
  }

  lemma ChunkSplits(byId: Tasks, group: seq<Id>, k: nat)
    requires 1 <= k < |group| && Group(byId, group)
    ensures Group(byId, group[k..]) && GoodWave(byId, k, WaveOf(group[..k], byId, k))
    ensures Flatten(ChunkWaves(group, byId, k)) == group[..k] + Flatten(ChunkWaves(group[k..], byId, k))
    ensures GoodWaves(byId, k, ChunkWaves(group[k..], byId, k)) ==> GoodWaves(byId, k, ChunkWaves(group, byId, k))
    ensures |ChunkWaves(group, byId, k)| == 1 + |ChunkWaves(group[k..], byId, k)|
  {
    GroupSlice(byId, group, k);
    GroupWave(byId, group[..k], k);
    var first := [WaveOf(group[..k], byId, k)];
    FlattenConcat(first, ChunkWaves(group[k..], byId, k));
    assert first[..0] == [] && Flatten(first) == group[..k];
  }

  lemma {:induction false} SolosFlatten(byId: Tasks, solo: seq<Id>)
    requires Known(byId, solo)
    ensures Flatten(SoloWaves(solo, byId)) == solo
  {
    if solo != [] {
      var n := |solo| - 1;
      SolosFlatten(byId, solo[..n]);
      assert SoloWaves(solo, byId)[..n] == SoloWaves(solo[..n], byId);
    }
  }

  ghost predicate NoClash(byId: Tasks, layer: seq<Id>)
    requires Known(byId, layer)
  {
    forall i, j, f :: !Clash(byId, layer, i, j, f)
  }

  lemma KeepIsGroup(byId: Tasks, layer: seq<Id>)
    requires Known(byId, layer) && Distinct(layer) && NoClash(byId, layer)
    ensures Group(byId, Keep(layer, byId, true))
  {
    KeepElements(layer, byId, true);
    var group := Keep(layer, byId, true);
    forall i, j | 0 <= i < j < |group| ensures byId[group[i]].files !! byId[group[j]].files {
      var a :| 0 <= a < |layer| && layer[a] == group[i];
      var b :| 0 <= b < |layer| && layer[b] == group[j];
      assert a != b;
      forall f | f in byId[group[i]].files ensures f !in byId[group[j]].files {
        assert !Clash(byId, layer, a, b, f) && !Clash(byId, layer, b, a, f);
        assert Writes(byId, layer, a, f);
      }
    }
  }

  lemma SolosGood(byId: Tasks, solo: seq<Id>, k: nat)
    requires k >= 1 && Known(byId, solo)
    ensures GoodWaves(byId, k, SoloWaves(solo, byId))
  {}

  /** The waves of one layer: solo tasks alone, then `ceil(group / k)` chunks. */
  lemma LayerWavesGood(byId: Tasks, layer: seq<Id>, k: nat)
    requires k >= 1 && Known(byId, layer) && Distinct(layer) && NoClash(byId, layer)
    ensures GoodWaves(byId, k, LayerWaves(layer, byId, k))
    ensures Flatten(LayerWaves(layer, byId, k)) == Keep(layer, byId, false) + Keep(layer, byId, true)
    ensures |LayerWaves(layer, byId, k)| == |Keep(layer, byId, false)| + CeilDiv(|Keep(layer, byId, true)|, k)
  {
    KeepElements(layer, byId, false);
    KeepElements(layer, byId, true);
    KeepIsGroup(byId, layer);
    var solo, group := Keep(layer, byId, false), Keep(layer, byId, true);
    SolosFlatten(byId, solo);
    SolosGood(byId, solo, k);
    ChunksGood(byId, group, k);
    FlattenConcat(SoloWaves(solo, byId), ChunkWaves(group, byId, k));
  }

  lemma LayerSplitPermutes(byId: Tasks, layer: seq<Id>)
    requires Known(byId, layer) && Distinct(layer)
    ensures Distinct(Keep(layer, byId, false) + Keep(layer, byId, true))
    ensures forall x :: x in Keep(layer, byId, false) + Keep(layer, byId, true) <==> x in layer
  {
    KeepElements(layer, byId, false);
    KeepElements(layer, byId, true);
  }

  /** Every dependency of a wave's tasks runs in a strictly earlier wave. */
  ghost predicate DependenciesEarlier(g: Graph, waves: seq<Wave>) {
    forall i, x, y :: 0 <= i < |waves| && x in waves[i].tasks && Edge(g, x, y) ==> y in Flatten(waves[..i])
  }

  lemma DependenciesAppend(g: Graph, a: seq<Wave>, b: seq<Wave>)
    requires DependenciesEarlier(g, a)
    requires forall x, y :: x in Flatten(b) && Edge(g, x, y) ==> y in Flatten(a)
    ensures DependenciesEarlier(g, a + b)
  {
    forall i, x, y | 0 <= i < |a + b| && x in (a + b)[i].tasks && Edge(g, x, y)
      ensures y in Flatten((a + b)[..i])
    {
      if i < |a| {
        assert (a + b)[..i] == a[..i];
      } else {
        FlattenMember(b, x);
        assert (a + b)[i] == b[i - |a|];
        FlattenConcat(a, b[..i - |a|]);
        assert (a + b)[..i] == a + b[..i - |a|];
      }
    }
  }

  /** The number of waves: per layer, its solo tasks plus `ceil(group / k)`. */
  ghost function WaveCount(layers: seq<seq<Id>>, byId: Tasks, k: nat): nat
    requires k >= 1
  {
    if layers == [] then 0
    else
      var layer := Last(layers);
      WaveCount(layers[..|layers| - 1], byId, k)
        + |Keep(layer, byId, false)| + CeilDiv(|Keep(layer, byId, true)|, k)
  }

  /** The tasks of all layers. */
  ghost function Covered(layers: seq<seq<Id>>): set<Id> {
    if layers == [] then {} else Covered(layers[..|layers| - 1]) + Elements(Last(layers))
  }

  lemma {:induction false} CoveredMember(layers: seq<seq<Id>>, n: nat, x: Id)
    requires n <= |layers|
    ensures x in Covered(layers[..n]) <==> exists l :: 0 <= l < n && x in layers[l]
  {
    if n > 0 {
      CoveredMember(layers, n - 1, x);
      assert layers[..n][..n - 1] == layers[..n - 1];
    }
  }

  /** What is true of the waves of the first layers of a clash-free layering. */
  ghost predicate Sound(g: Graph, byId: Tasks, k: nat, layers: seq<seq<Id>>, waves: seq<Wave>)
    requires k >= 1
  {
    && GoodWaves(byId, k, waves)
    && Distinct(Flatten(waves))
    && Elements(Flatten(waves)) == Covered(layers)
    && DependenciesEarlier(g, waves)
    && |waves| == WaveCount(layers, byId, k)
  }

  /** A clash-free layer whose tasks are new and depend only on `done`. */
  ghost predicate NextLayer(g: Graph, byId: Tasks, layer: seq<Id>, done: set<Id>) {
    && Known(byId, layer) && Distinct(layer) && NoClash(byId, layer)
    && Elements(layer) !! done
    && forall x, y :: x in layer && Edge(g, x, y) ==> y in done
  }

  ghost predicate Layered(g: Graph, byId: Tasks, layers: seq<seq<Id>>) {
    forall l :: 0 <= l < |layers| ==> NextLayer(g, byId, layers[l], Covered(layers[..l]))
  }

  lemma {:induction false} AllWavesSound(g: Graph, byId: Tasks, k: nat, layers: seq<seq<Id>>)
    requires k >= 1 && Layered(g, byId, layers)
    ensures KnownLayers(byId, layers) && Sound(g, byId, k, layers, AllWaves(layers, byId, k))
  {
    if layers != [] {
      var n := |layers| - 1;
      forall l | 0 <= l < n ensures NextLayer(g, byId, layers[..n][l], Covered(layers[..n][..l])) {
        assert layers[..n][..l] == layers[..l];
      }
      AllWavesSound(g, byId, k, layers[..n]);
      AddLayer(g, byId, k, layers, AllWaves(layers[..n], byId, k));
    }
  }

  lemma AddLayer(g: Graph, byId: Tasks, k: nat, layers: seq<seq<Id>>, waves: seq<Wave>)
    requires k >= 1 && layers != []
    requires NextLayer(g, byId, Last(layers), Covered(layers[..|layers| - 1]))
    requires Sound(g, byId, k, layers[..|layers| - 1], waves)
    ensures Sound(g, byId, k, layers, waves + LayerWaves(Last(layers), byId, k))
  {
    var layer := Last(layers);
    var added := LayerWaves(layer, byId, k);
    LayerWavesGood(byId, layer, k);
    LayerSplitPermutes(byId, layer);
    FlattenConcat(waves, added);
    DistinctConcat(Flatten(waves), Flatten(added));
    assert Elements(Flatten(added)) == Elements(layer);
    DependenciesAppend(g, waves, added);
  }

  lemma DistinctConcat(a: seq<Id>, b: seq<Id>)
    requires Distinct(a) && Distinct(b)
    ensures Elements(a + b) == Elements(a) + Elements(b)
    ensures Elements(a) !! Elements(b) ==> Distinct(a + b)
  {
    assert forall i :: 0 <= i < |a| ==> a[i] in Elements(a);
    assert forall i :: 0 <= i < |b| ==> b[i] in Elements(b);
  }

  lemma LayersAreLayered(byId: Tasks)
    requires var g := DependencyGraph(byId); Unscheduled(g) == {} && !Collision(byId)
    ensures var g := DependencyGraph(byId);
      Layered(g, byId, SortedAll(Layers(g))) && Covered(SortedAll(Layers(g))) == byId.Keys
  {
    var g := DependencyGraph(byId);
    var layers := SortedAll(Layers(g));
    forall l | 0 <= l < |layers| ensures NextLayer(g, byId, layers[l], Covered(layers[..l])) {
      LayerIsNext(byId, l);
    }
    LayersCover(g);
  }

  lemma LayersCover(g: Graph)
    requires Unscheduled(g) == {}
    ensures Covered(SortedAll(Layers(g))) == g.Keys
  {
    var n := |Layers(g)|;
    TakeAll(SortedAll(Layers(g)));
    PeelPartitions(g, g.Keys);
    forall x ensures x in Covered(SortedAll(Layers(g))[..n]) <==> x in g.Keys {
      InLayerIffSorted(g, n, x);
    }
  }

  lemma InLayerIffSorted(g: Graph, n: nat, x: Id)
    requires n <= |Layers(g)|
    ensures x in Covered(SortedAll(Layers(g))[..n]) <==> exists l :: l < n && InLayer(Layers(g), l, x)
  {
    var layers := SortedAll(Layers(g));
    CoveredMember(layers, n, x);
    forall l | 0 <= l < n ensures x in layers[l] <==> InLayer(Layers(g), l, x) {
      assert x in layers[l] <==> x in Elements(layers[l]);
    }
  }

  lemma LayerIsNext(byId: Tasks, l: nat)
    requires var g := DependencyGraph(byId); Unscheduled(g) == {} && !Collision(byId) && l < |Layers(g)|
    ensures var g := DependencyGraph(byId);
      NextLayer(g, byId, SortedAll(Layers(g))[l], Covered(SortedAll(Layers(g))[..l]))
  {
    var g := DependencyGraph(byId);
    var layers := SortedAll(Layers(g));
    LayersKnown(byId);
    PeelPartitions(g, g.Keys);
    forall i, j, f ensures !Clash(byId, layers[l], i, j, f) {
      if Clash(byId, layers[l], i, j, f) { ClashCollides(byId, l, i, j, f); }
    }
    forall x | x in layers[l] ensures x !in Covered(layers[..l]) {
      assert x in Elements(layers[l]);
      assert InLayer(Layers(g), l, x);
      InLayerIffSorted(g, l, x);
    }
    forall x, y | x in layers[l] && Edge(g, x, y) ensures y in Covered(layers[..l]) {
      assert x in Elements(layers[l]);
      assert InLayer(Layers(g), l, x);
      PeelDependencies(g, g.Keys, l, x, y);
      InLayerIffSorted(g, l, y);
    }
  }

  lemma {:induction false} NumberingKeepsTasks(waves: seq<Wave>, n: nat)
    requires n <= |waves|
    ensures Flatten(Numbered(waves)[..n]) == Flatten(waves[..n])
  {
    if n > 0 {
      NumberingKeepsTasks(waves, n - 1);
      assert Numbered(waves)[..n][..n - 1] == Numbered(waves)[..n - 1];
      assert waves[..n][..n - 1] == waves[..n - 1];
    }
  }

  /** Everything a valid plan promises; `PlanWaves` returns waves that are `Planned`. */
  lemma ValidPlanIsSound(tasks: seq<TaskNode>, k: nat, waves: seq<Wave>)
    requires Schedulable(tasks, k) && Planned(ById(tasks), k, waves)
    ensures forall i :: 0 <= i < |waves| ==> waves[i].number == i + 1
    ensures GoodWaves(ById(tasks), k, waves)
    ensures Distinct(Flatten(waves)) && Elements(Flatten(waves)) == ById(tasks).Keys
    ensures DependenciesEarlier(DependencyGraph(ById(tasks)), waves)
    ensures |waves| == WaveCount(SortedAll(Layers(DependencyGraph(ById(tasks)))), ById(tasks), k)
  {
    var byId := ById(tasks);
    var g := DependencyGraph(byId);
    AllScheduledIff(g);
    LayersAreLayered(byId);
    var layers := SortedAll(Layers(g));
    AllWavesSound(g, byId, k, layers);
    NumberingKeepsSound(g, byId, k, layers, AllWaves(layers, byId, k));
  }

  lemma NumberingKeepsSound(g: Graph, byId: Tasks, k: nat, layers: seq<seq<Id>>, waves: seq<Wave>)
    requires k >= 1 && Sound(g, byId, k, layers, waves)
    ensures Sound(g, byId, k, layers, Numbered(waves))
  {
    NumberingKeepsTasks(waves, |waves|);
    assert waves[..|waves|] == waves && Numbered(waves)[..|waves|] == Numbered(waves);
    forall i, x, y | 0 <= i < |waves| && x in Numbered(waves)[i].tasks && Edge(g, x, y)
      ensures y in Flatten(Numbered(waves)[..i])
    {
      NumberingKeepsTasks(waves, i);
      assert x in waves[i].tasks;
    }
  }

  // ---- the plan does not depend on the order of the task list ----

  lemma {:induction false} MultiplicityOfDistinct<T(!new)>(s: seq<T>, x: T)
    ensures Distinct(s) ==> multiset(s)[x] <= 1
    ensures x in s <==> multiset(s)[x] >= 1
  {
    if s != [] {
      var n := |s| - 1;
      assert s == s[..n] + [s[n]];
      MultiplicityOfDistinct(s[..n], x);
    }
  }

  lemma MultiplicityOfRepeat<T(!new)>(s: seq<T>, i: nat, j: nat)
    requires i < j < |s| && s[i] == s[j]
    ensures multiset(s)[s[i]] >= 2
  {
    assert s == s[..j] + s[j..];
    assert s[..j][i] == s[i] && s[j..][0] == s[i];
    MultiplicityOfDistinct(s[..j], s[i]);
    MultiplicityOfDistinct(s[j..], s[i]);
  }

  lemma PermutedUniqueIds(a: seq<TaskNode>, b: seq<TaskNode>)
    requires multiset(a) == multiset(b) && UniqueIds(a)
    ensures UniqueIds(b)
  {
    forall i, j | 0 <= i < j < |b| ensures b[i].id != b[j].id {
      if b[i].id == b[j].id {
        MultiplicityOfDistinct(a, b[i]);
        MultiplicityOfDistinct(a, b[j]);
        MultiplicityOfDistinct(b, b[i]);
        MultiplicityOfDistinct(b, b[j]);
        assert b[i] in a && b[j] in a;
        assert b[i] == b[j];
        MultiplicityOfRepeat(b, i, j);
      }
    }
  }

  lemma PermutedById(a: seq<TaskNode>, b: seq<TaskNode>)
    requires multiset(a) == multiset(b) && UniqueIds(a)
    ensures ById(a) == ById(b)
  {
    PermutedUniqueIds(a, b);
    PermutedEntries(a, b);
    PermutedEntries(b, a);
  }

  lemma PermutedEntries(a: seq<TaskNode>, b: seq<TaskNode>)
    requires multiset(a) == multiset(b) && UniqueIds(a) && UniqueIds(b)
    ensures forall x :: x in ById(a) ==> x in ById(b) && ById(b)[x] == ById(a)[x]
  {
    ByIdEntries(a);
    forall x | x in ById(a) ensures x in ById(b) && ById(b)[x] == ById(a)[x] {
      var t := ById(a)[x];
      MultiplicityOfDistinct(a, t);
      MultiplicityOfDistinct(b, t);
      var i :| 0 <= i < |b| && b[i] == t;
      ByIdUnique(b, i);
    }
  }

  /** Any permutation of the task list has the same verdict and the same waves. */
  lemma PlanIgnoresTaskOrder(a: seq<TaskNode>, b: seq<TaskNode>, k: int, wavesA: seq<Wave>, wavesB: seq<Wave>)
    requires multiset(a) == multiset(b)
    ensures Schedulable(a, k) <==> Schedulable(b, k)
    ensures Schedulable(a, k) && Planned(ById(a), k, wavesA) && Planned(ById(b), k, wavesB) ==> wavesA == wavesB
  {
    if UniqueIds(a) {
      PermutedUniqueIds(a, b);
      PermutedById(a, b);
    } else if UniqueIds(b) {
      PermutedUniqueIds(b, a);
    }
  }
}
