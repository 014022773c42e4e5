/** In which order a valid plan runs its tasks, said without the scheduler's own steps. */
module WaveOrder {
  import opened Ids
  import opened Graphs
  import opened WaveTasks
  import opened WaveKahn
  import opened WaveLayers
  import opened WavePlan
  import opened WavePlanTheorems

  /** Of two tasks of one depth: those that must run alone come first, then ids decide. */
  ghost predicate Prior(byId: Tasks, x: Id, y: Id) {
    x in byId && y in byId &&
    if byId[x].parallelSafe == byId[y].parallelSafe then x != y && Le(x, y) else byId[y].parallelSafe
  }

  /** The layer of a task, or -1. */
  ghost function Level(g: Graph, x: Id): int {
    if x in g && x !in Unscheduled(g) then LayerOf(g, x) else -1
  }

  ghost predicate Sooner(byId: Tasks, x: Id, y: Id) {
    var g := DependencyGraph(byId);
    Level(g, x) < Level(g, y) || (Level(g, x) == Level(g, y) && Prior(byId, x, y))
  }

  ghost predicate Arranged(byId: Tasks, s: seq<Id>) {
    forall i, j :: 0 <= i < j < |s| ==> Sooner(byId, s[i], s[j])
  }

  lemma ArrangedConcat(byId: Tasks, a: seq<Id>, b: seq<Id>)
    requires Arranged(byId, a) && Arranged(byId, b)
    requires forall x, y :: x in a && y in b ==> Sooner(byId, x, y)
    ensures Arranged(byId, a + b)
  {
    forall i, j | 0 <= i < j < |a + b| ensures Sooner(byId, (a + b)[i], (a + b)[j]) {
      if i < |a| && |a| <= j { assert a[i] in a && b[j - |a|] in b; }
    }
  }

  /** Choosing the tasks of one kind keeps their order. */
  lemma {:induction false} KeepSorted(layer: seq<Id>, byId: Tasks, safe: bool)
    requires IsSorted(layer)
    ensures IsSorted(Keep(layer, byId, safe))
    ensures forall x :: x in Keep(layer, byId, safe) ==> x in layer && x in byId && byId[x].parallelSafe == safe
  {
    if layer != [] {
      var n := |layer| - 1;
      KeepSorted(layer[..n], byId, safe);
      var rest := Keep(layer[..n], byId, safe);
      forall i | 0 <= i < |rest| ensures rest[i] != layer[n] && Le(rest[i], layer[n]) {
        assert rest[i] in layer[..n];
      }
    }
  }

  /** A sorted layer of tasks of one level, fit to be split into waves. */
  ghost predicate LeveledLayer(byId: Tasks, layer: seq<Id>, l: int) {
    && IsSorted(layer) && Known(byId, layer) && Distinct(layer) && NoClash(byId, layer)
    && forall x :: x in layer ==> Level(DependencyGraph(byId), x) == l
  }

  ghost predicate Leveled(byId: Tasks, layers: seq<seq<Id>>) {
    forall l :: 0 <= l < |layers| ==> LeveledLayer(byId, layers[l], l)
  }

  lemma LeveledParts(byId: Tasks, layers: seq<seq<Id>>)
    requires Leveled(byId, layers)
    ensures KnownLayers(byId, layers)
    ensures layers != [] ==>
      Leveled(byId, layers[..|layers| - 1]) && LeveledLayer(byId, Last(layers), |layers| - 1)
  {}

  /** The tasks of one layer in running order. */
  ghost function LayerOrder(layer: seq<Id>, byId: Tasks): seq<Id> {
    Keep(layer, byId, false) + Keep(layer, byId, true)
  }

  lemma LayerArranged(byId: Tasks, layer: seq<Id>, l: int)
    requires LeveledLayer(byId, layer, l)
    ensures Arranged(byId, LayerOrder(layer, byId))
    ensures forall x :: x in LayerOrder(layer, byId) ==> Level(DependencyGraph(byId), x) == l
  {
    KeepSorted(layer, byId, false);
    KeepSorted(layer, byId, true);
    OneKindArranged(byId, Keep(layer, byId, false), l, false);
    OneKindArranged(byId, Keep(layer, byId, true), l, true);
    ArrangedConcat(byId, Keep(layer, byId, false), Keep(layer, byId, true));
  }

  lemma OneKindArranged(byId: Tasks, s: seq<Id>, l: int, safe: bool)
    requires IsSorted(s)
    requires forall x :: x in s ==>
      x in byId && byId[x].parallelSafe == safe && Level(DependencyGraph(byId), x) == l
    ensures Arranged(byId, s)
  {
    forall i, j | 0 <= i < j < |s| ensures Sooner(byId, s[i], s[j]) {
      assert s[i] in s && s[j] in s;
    }
  }

  /** The tasks of all layers in running order. */
  ghost function FlatLayers(byId: Tasks, layers: seq<seq<Id>>): seq<Id> {
    if layers == [] then [] else FlatLayers(byId, layers[..|layers| - 1]) + LayerOrder(Last(layers), byId)
  }

  lemma {:induction false} FlatArranged(byId: Tasks, layers: seq<seq<Id>>)
    requires Leveled(byId, layers)
    ensures Arranged(byId, FlatLayers(byId, layers))
    ensures forall x :: x in FlatLayers(byId, layers) ==> Level(DependencyGraph(byId), x) < |layers|
  {
    if layers != [] {
      LeveledParts(byId, layers);
      var n := |layers| - 1;
      FlatArranged(byId, layers[..n]);
      LayerArranged(byId, layers[n], n);
      AddLayerOrder(byId, FlatLayers(byId, layers[..n]), LayerOrder(layers[n], byId), n);
    }
  }

  lemma AddLayerOrder(byId: Tasks, a: seq<Id>, b: seq<Id>, n: int)
    requires Arranged(byId, a) && Arranged(byId, b)
    requires forall x :: x in a ==> Level(DependencyGraph(byId), x) < n
    requires forall x :: x in b ==> Level(DependencyGraph(byId), x) == n
    ensures Arranged(byId, a + b) && forall x :: x in a + b ==> Level(DependencyGraph(byId), x) < n + 1
  {
    ArrangedConcat(byId, a, b);
  }

  /** The waves run the tasks in that order. */
  lemma {:induction false} FlattenLayers(byId: Tasks, k: nat, layers: seq<seq<Id>>)
    requires Leveled(byId, layers) && k >= 1
    ensures KnownLayers(byId, layers) && Flatten(AllWaves(layers, byId, k)) == FlatLayers(byId, layers)
  {
    LeveledParts(byId, layers);
    if layers != [] {
      var n := |layers| - 1;
      FlattenLayers(byId, k, layers[..n]);
      LayerWavesGood(byId, layers[n], k);
      FlattenConcat(AllWaves(layers[..n], byId, k), LayerWaves(layers[n], byId, k));
    }
  }

  lemma PeeledLayerIsLeveled(byId: Tasks, l: nat)
    requires var g := DependencyGraph(byId); Unscheduled(g) == {} && !Collision(byId) && l < |Layers(g)|
    ensures LeveledLayer(byId, Sorted(Layers(DependencyGraph(byId))[l]), l)
  {
    var g := DependencyGraph(byId);
    LayerIsNext(byId, l);
    forall x | x in Sorted(Layers(g)[l]) ensures Level(g, x) == l {
      assert x in Elements(Sorted(Layers(g)[l]));
      LayerOfUnique(g, l, x);
    }
  }

  lemma LayersAreLeveled(byId: Tasks)
    requires Unscheduled(DependencyGraph(byId)) == {} && !Collision(byId)
    ensures Leveled(byId, SortedAll(Layers(DependencyGraph(byId))))
  {
    forall l | 0 <= l < |Layers(DependencyGraph(byId))|
      ensures LeveledLayer(byId, SortedAll(Layers(DependencyGraph(byId)))[l], l)
    {
      PeeledLayerIsLeveled(byId, l);
    }
  }

  // ---- the order of a valid plan ----

  ghost predicate Before(s: seq<Id>, x: Id, y: Id) {
    exists i, j :: 0 <= i < j < |s| && s[i] == x && s[j] == y
  }

  lemma LevelIsDepth(g: Graph, x: Id, d: nat)
    requires Unscheduled(g) == {} && x in g && IsDepth(g, x, d)
    ensures Level(g, x) == d
  {
    UnscheduledIffDoomed(g, x);
    LayerIffDepth(g, x, d);
    LayerOfUnique(g, d, x);
  }

  lemma SoonerIsAsymmetric(byId: Tasks, x: Id, y: Id)
    requires x in byId && y in byId && x != y
    ensures Sooner(byId, x, y) <==> !Sooner(byId, y, x)
  {
    LeTotal(x, y);
    if Le(x, y) && Le(y, x) { LeAntisymmetric(x, y); }
  }

  lemma BeforeIffSooner(byId: Tasks, s: seq<Id>, x: Id, y: Id)
    requires Arranged(byId, s) && x in s && y in s && x in byId && y in byId && x != y
    ensures Before(s, x, y) <==> Sooner(byId, x, y)
  {
    SoonerIsAsymmetric(byId, x, y);
    var i :| 0 <= i < |s| && s[i] == x;
    var j :| 0 <= j < |s| && s[j] == y;
    if i > j { assert Sooner(byId, s[j], s[i]); }
  }

  /** A valid plan is the numbered waves of some leveled layers. */
  lemma PlanLayers(tasks: seq<TaskNode>, k: nat, waves: seq<Wave>) returns (layers: seq<seq<Id>>)
    requires Schedulable(tasks, k) && Planned(ById(tasks), k, waves)
    ensures Unscheduled(DependencyGraph(ById(tasks))) == {} && Leveled(ById(tasks), layers)
    ensures KnownLayers(ById(tasks), layers) && waves == Numbered(AllWaves(layers, ById(tasks), k))
  {
    AllScheduledIff(DependencyGraph(ById(tasks)));
    LayersAreLeveled(ById(tasks));
    layers := SortedAll(Layers(DependencyGraph(ById(tasks))));
  }

  lemma PlanArranged(tasks: seq<TaskNode>, k: nat, waves: seq<Wave>)
    requires Schedulable(tasks, k) && Planned(ById(tasks), k, waves)
    ensures Unscheduled(DependencyGraph(ById(tasks))) == {} && Arranged(ById(tasks), Flatten(waves))
  {
    var layers := PlanLayers(tasks, k, waves);
    FlattenLayers(ById(tasks), k, layers);
    FlatArranged(ById(tasks), layers);
    var plain := AllWaves(layers, ById(tasks), k);
    NumberingKeepsTasks(plain, |plain|);
    TakeAll(plain);
    TakeAll(Numbered(plain));
  }

  /**
   Of any two tasks of a valid plan the one of less depth runs first; at equal depth a task
   that must run alone runs before one that need not, and otherwise the smaller id runs first.
   */
  lemma PlanOrderIff(tasks: seq<TaskNode>, k: nat, waves: seq<Wave>, x: Id, d: nat, y: Id, e: nat)
    requires Schedulable(tasks, k) && Planned(ById(tasks), k, waves)
    requires x in ById(tasks) && y in ById(tasks) && x != y
    requires IsDepth(DependencyGraph(ById(tasks)), x, d) && IsDepth(DependencyGraph(ById(tasks)), y, e)
    ensures Before(Flatten(waves), x, y) <==> d < e || (d == e && Prior(ById(tasks), x, y))
  {
    var byId := ById(tasks);
    PlanArranged(tasks, k, waves);
    LevelIsDepth(DependencyGraph(byId), x, d);
    LevelIsDepth(DependencyGraph(byId), y, e);
    ValidPlanIsSound(tasks, k, waves);
    assert x in Elements(Flatten(waves)) && y in Elements(Flatten(waves));
    BeforeIffSooner(byId, Flatten(waves), x, y);
  }

  // ---- only the last chunk of a depth may be short ----

  ghost predicate SafeAt(byId: Tasks, w: Wave, l: int) {
    exists x :: x in w.tasks && x in byId && byId[x].parallelSafe && Level(DependencyGraph(byId), x) == l
  }

  /** A wave of parallel tasks that a later wave of that depth follows is full. */
  ghost predicate FullButLast(byId: Tasks, k: nat, waves: seq<Wave>) {
    forall i, j, l :: 0 <= i < j < |waves| && SafeAt(byId, waves[i], l) && SafeAt(byId, waves[j], l) ==>
      |waves[i].tasks| == k
  }

  lemma {:induction false} ChunksFull(byId: Tasks, group: seq<Id>, k: nat, i: nat)
    requires k >= 1 && Known(byId, group) && i + 1 < |ChunkWaves(group, byId, k)|
    ensures |ChunkWaves(group, byId, k)[i].tasks| == k
    decreases |group|
  {
    if i > 0 { ChunksFull(byId, group[k..], k, i - 1); }
  }

  lemma SolosAreUnsafe(byId: Tasks, layer: seq<Id>, i: nat, l: int)
    requires Known(byId, layer) && Distinct(layer) && Known(byId, Keep(layer, byId, false))
    requires i < |Keep(layer, byId, false)|
    ensures !SafeAt(byId, SoloWaves(Keep(layer, byId, false), byId)[i], l)
  {
    KeepElements(layer, byId, false);
    assert Keep(layer, byId, false)[i] in Keep(layer, byId, false);
  }

  lemma LayerIsFull(byId: Tasks, layer: seq<Id>, k: nat)
    requires k >= 1 && Known(byId, layer) && Distinct(layer)
    ensures FullButLast(byId, k, LayerWaves(layer, byId, k))
  {
    KeepElements(layer, byId, false);
    KeepElements(layer, byId, true);
    var solo, group := Keep(layer, byId, false), Keep(layer, byId, true);
    var waves := LayerWaves(layer, byId, k);
    forall i, l | 0 <= i < |solo| ensures !SafeAt(byId, waves[i], l) { SolosAreUnsafe(byId, layer, i, l); }
    forall i, j, l | 0 <= i < j < |waves| && SafeAt(byId, waves[i], l) && SafeAt(byId, waves[j], l)
      ensures |waves[i].tasks| == k
    {
      ChunksFull(byId, group, k, i - |solo|);
    }
  }

  lemma FullConcat(byId: Tasks, k: nat, a: seq<Wave>, b: seq<Wave>, n: int)
    requires FullButLast(byId, k, a) && FullButLast(byId, k, b)
    requires SafeBelow(byId, a, n)
    requires forall i, l :: 0 <= i < |b| && SafeAt(byId, b[i], l) ==> l == n
    ensures FullButLast(byId, k, a + b)
    ensures SafeBelow(byId, a + b, n + 1)
  {}

  ghost predicate SafeBelow(byId: Tasks, waves: seq<Wave>, n: int) {
    forall i, l :: 0 <= i < |waves| && SafeAt(byId, waves[i], l) ==> l < n
  }

  lemma {:induction false} AllWavesFull(byId: Tasks, k: nat, layers: seq<seq<Id>>)
    requires Leveled(byId, layers) && KnownLayers(byId, layers) && k >= 1
    ensures FullButLast(byId, k, AllWaves(layers, byId, k)) && SafeBelow(byId, AllWaves(layers, byId, k), |layers|)
  {
    if layers != [] {
      LeveledParts(byId, layers);
      var n := |layers| - 1;
      AllWavesFull(byId, k, layers[..n]);
      var added := LayerWaves(layers[n], byId, k);
      LayerIsFull(byId, layers[n], k);
      forall i, l | 0 <= i < |added| && SafeAt(byId, added[i], l) ensures l == n {
        AddedLevel(byId, k, layers[n], n, i, l);
      }
      FullConcat(byId, k, AllWaves(layers[..n], byId, k), added, n);
    }
  }

  lemma AddedLevel(byId: Tasks, k: nat, layer: seq<Id>, n: int, i: nat, l: int)
    requires k >= 1 && LeveledLayer(byId, layer, n)
    requires i < |LayerWaves(layer, byId, k)| && SafeAt(byId, LayerWaves(layer, byId, k)[i], l)
    ensures l == n
  {
    var waves := LayerWaves(layer, byId, k);
    var x :| x in waves[i].tasks && x in byId && byId[x].parallelSafe && Level(DependencyGraph(byId), x) == l;
    LayerWavesGood(byId, layer, k);
    FlattenMember(waves, x);
    LayerArranged(byId, layer, n);
  }

  /** In a valid plan only the last wave of a depth's parallel tasks holds fewer than `maxParallel`. */
  lemma WavesAreFull(tasks: seq<TaskNode>, k: nat, waves: seq<Wave>, i: nat, x: Id, j: nat, y: Id, d: nat)
    requires Schedulable(tasks, k) && Planned(ById(tasks), k, waves) && i < j < |waves|
    requires x in waves[i].tasks && y in waves[j].tasks && x in ById(tasks) && y in ById(tasks)
    requires ById(tasks)[x].parallelSafe && ById(tasks)[y].parallelSafe
    requires IsDepth(DependencyGraph(ById(tasks)), x, d) && IsDepth(DependencyGraph(ById(tasks)), y, d)
    ensures |waves[i].tasks| == k
  {
    var byId := ById(tasks);
    var layers := PlanLayers(tasks, k, waves);
    LevelIsDepth(DependencyGraph(byId), x, d);
    LevelIsDepth(DependencyGraph(byId), y, d);
    AllWavesFull(byId, k, layers);
    var plain := AllWaves(layers, byId, k);
    assert plain[i].tasks == waves[i].tasks && plain[j].tasks == waves[j].tasks;
    assert SafeAt(byId, plain[i], d) && SafeAt(byId, plain[j], d);
  }
}
