/**
 The wave scheduler.  A task list becomes numbered waves, or one issue says why it cannot:
 the bound, duplicate ids, a cycle, an unresolvable dependency, or a write overlap inside
 one layer, checked in that order.
 */
module WavePlan {
  import opened Ids
  import opened Graphs
  import opened Options
  import opened WaveTasks
  import opened WaveCycle
  import opened WaveKahn
  import opened WaveLayers

  ghost predicate Known(byId: Tasks, layer: seq<Id>) {
    forall i :: 0 <= i < |layer| ==> layer[i] in byId
  }

  // ---- the write-overlap gate ----

  /** Task `i` of the layer is a candidate for parallel work and writes `f`. */
  ghost predicate Writes(byId: Tasks, layer: seq<Id>, i: int, f: string)
    requires Known(byId, layer)
  {
    0 <= i < |layer| && byId[layer[i]].parallelSafe && f in byId[layer[i]].files
  }

  ghost predicate Clash(byId: Tasks, layer: seq<Id>, i: int, j: int, f: string)
    requires Known(byId, layer)
  {
    i < j && Writes(byId, layer, i, f) && Writes(byId, layer, j, f)
  }

  /** The reported overlap names two tasks of the layer, in layer order, and a file both write. */
  ghost predicate ClashIn(byId: Tasks, layer: seq<Id>, overlap: Issue)
    requires Known(byId, layer) && overlap.WriteOverlap?
  {
    exists i, j ::
      Clash(byId, layer, i, j, overlap.file) && layer[i] == overlap.first && layer[j] == overlap.second
  }

  /** The inner loops of `_detect_layer_overlap`, for one layer. */
  method DetectOverlapIn(layer: seq<Id>, byId: Tasks) returns (r: Option<Issue>)
    requires Known(byId, layer)
    ensures r.None? ==> forall i, j, f :: !Clash(byId, layer, i, j, f)
    ensures r.Some? ==> r.value.WriteOverlap? && ClashIn(byId, layer, r.value)
  {
    var seen: map<string, Id> := map[];
    for n := 0 to |layer|
      invariant forall f :: f in seen ==> exists i :: i < n && Writes(byId, layer, i, f) && layer[i] == seen[f]
      invariant forall i, f :: i < n && Writes(byId, layer, i, f) ==> f in seen
      invariant forall i, j, f :: j < n ==> !Clash(byId, layer, i, j, f)
    {
      var tid := layer[n];
      if byId[tid].parallelSafe {
        ghost var before := seen;
        var left := byId[tid].files;
        while left != {}
          invariant left <= byId[tid].files
          invariant seen.Keys == before.Keys + (byId[tid].files - left)
          invariant forall f :: f in before ==> f in left || f !in byId[tid].files
          invariant forall f :: f in seen ==> seen[f] == if f in before then before[f] else tid
          decreases left
        {
          var f :| f in left;
          if f in seen && byId[seen[f]].parallelSafe {
            assert Writes(byId, layer, n, f);
            ghost var i :| i < n && Writes(byId, layer, i, f) && layer[i] == seen[f];
            assert Clash(byId, layer, i, n, f);
            return Some(WriteOverlap(seen[f], tid, f));
          }
          seen := seen[f := tid];
          left := left - {f};
        }
        assert forall f :: f in byId[tid].files ==> Writes(byId, layer, n, f);
      }
    }
    r := None;
  }

  /** `_detect_layer_overlap`: the first overlap found in layer order. */
  method DetectLayerOverlap(layers: seq<seq<Id>>, byId: Tasks) returns (r: Option<Issue>)
    requires forall l :: 0 <= l < |layers| ==> Known(byId, layers[l])
    ensures r.None? ==> forall l, i, j, f :: 0 <= l < |layers| ==> !Clash(byId, layers[l], i, j, f)
    ensures r.Some? ==>
      r.value.WriteOverlap? && exists l :: 0 <= l < |layers| && ClashIn(byId, layers[l], r.value)
  {
    for l := 0 to |layers|
      invariant forall m, i, j, f :: 0 <= m < l ==> !Clash(byId, layers[m], i, j, f)
    {
      r := DetectOverlapIn(layers[l], byId);
      if r.Some? {
        return;
      }
    }
    r := None;
  }

  // ---- splitting a layer into waves ----

  ghost function SortedFiles(byId: Tasks, ids: seq<Id>): map<Id, seq<string>>
    requires Known(byId, ids)
  {
    map t | t in ids :: Sorted(byId[t].files)
  }

  ghost function WaveOf(ids: seq<Id>, byId: Tasks, parallelism: nat): Wave
    requires Known(byId, ids)
  {
    Wave(0, ids, SortedFiles(byId, ids), parallelism, true,
         forall i :: 0 <= i < |ids| ==> byId[ids[i]].parallelSafe)
  }

  lemma SortedFilesSnoc(byId: Tasks, ids: seq<Id>, i: nat)
    requires Known(byId, ids) && i < |ids|
    ensures SortedFiles(byId, ids[..i + 1]) == SortedFiles(byId, ids[..i])[ids[i] := Sorted(byId[ids[i]].files)]
  {
    assert ids[..i + 1] == ids[..i] + [ids[i]];
  }

  method MakeWave(ids: seq<Id>, byId: Tasks, parallelism: nat) returns (w: Wave)
    requires Known(byId, ids)
    ensures w == WaveOf(ids, byId, parallelism)
  {
    var writeSets: map<Id, seq<string>> := map[];
    for i := 0 to |ids|
      invariant writeSets == SortedFiles(byId, ids[..i])
    {
      var files := SortIds(byId[ids[i]].files);
      SortedFilesSnoc(byId, ids, i);
      writeSets := writeSets[ids[i] := files];
    }
    assert ids[..|ids|] == ids;
    w := Wave(0, ids, writeSets, parallelism, true,
              forall i :: 0 <= i < |ids| ==> byId[ids[i]].parallelSafe);
  }

  /** `[tid for tid in layer if by_id[tid].parallel_safe == safe]` */
  function Keep(layer: seq<Id>, byId: Tasks, safe: bool): seq<Id> {
    if layer == [] then []
    else
      var rest := Keep(layer[..|layer| - 1], byId, safe);
      if Last(layer) in byId && byId[Last(layer)].parallelSafe == safe then rest + [Last(layer)] else rest
  }

  lemma {:induction false} KeepElements(layer: seq<Id>, byId: Tasks, safe: bool)
    requires Known(byId, layer) && Distinct(layer)
    ensures Distinct(Keep(layer, byId, safe))
    ensures forall x :: x in Keep(layer, byId, safe) <==> x in layer && byId[x].parallelSafe == safe
    ensures Known(byId, Keep(layer, byId, safe))
  {
    if layer != [] {
      KeepElements(layer[..|layer| - 1], byId, safe);
      assert layer == layer[..|layer| - 1] + [Last(layer)];
    }
  }

  ghost function SoloWaves(solo: seq<Id>, byId: Tasks): seq<Wave>
    requires Known(byId, solo)
  {
    seq(|solo|, i requires 0 <= i < |solo| => WaveOf([solo[i]], byId, 1))
  }

  /** `group` cut into consecutive chunks of at most `k`. */
  ghost function ChunkWaves(group: seq<Id>, byId: Tasks, k: nat): seq<Wave>
    requires k >= 1 && Known(byId, group)
    decreases |group|
  {
    if |group| == 0 then []
    else if |group| <= k then [WaveOf(group, byId, |group|)]
    else [WaveOf(group[..k], byId, k)] + ChunkWaves(group[k..], byId, k)
  }

  ghost function LayerWaves(layer: seq<Id>, byId: Tasks, k: nat): seq<Wave>
    requires k >= 1 && Known(byId, layer) && Distinct(layer)
  {
    KeepElements(layer, byId, false);
    KeepElements(layer, byId, true);
    SoloWaves(Keep(layer, byId, false), byId) + ChunkWaves(Keep(layer, byId, true), byId, k)
  }

  function From(s: seq<Id>, i: nat): seq<Id> {
    if i <= |s| then s[i..] else []
  }

  /** `group[i:i + k]` */
  function ChunkAt(group: seq<Id>, i: nat, k: nat): seq<Id>
    requires i <= |group|
  {
    group[i..if i + k <= |group| then i + k else |group|]
  }

  /** `waves` followed by the chunks still to come from position `i` on. */
  ghost function Complete(waves: seq<Wave>, group: seq<Id>, byId: Tasks, k: nat, i: nat): seq<Wave>
    requires k >= 1 && Known(byId, group)
  {
    waves + ChunkWaves(From(group, i), byId, k)
  }

  lemma ChunkFront(group: seq<Id>, byId: Tasks, k: nat, i: nat)
    requires k >= 1 && Known(byId, group) && i < |group|
    ensures var chunk := ChunkAt(group, i, k);
            ChunkWaves(From(group, i), byId, k) ==
              [WaveOf(chunk, byId, |chunk|)] + ChunkWaves(From(group, i + k), byId, k)
  {
    var rest := From(group, i);
    if |rest| <= k {
      assert ChunkAt(group, i, k) == rest;
    } else {
      assert rest[..k] == ChunkAt(group, i, k) && rest[k..] == From(group, i + k);
    }
  }

  lemma ChunkStep(group: seq<Id>, byId: Tasks, k: nat, i: nat, waves: seq<Wave>)
    requires k >= 1 && Known(byId, group) && i < |group|
    ensures var chunk := ChunkAt(group, i, k);
            Complete(waves + [WaveOf(chunk, byId, |chunk|)], group, byId, k, i + k) ==
              Complete(waves, group, byId, k, i)
  {
    var chunk := ChunkAt(group, i, k);
    ChunkFront(group, byId, k, i);
    ConcatAssociative(waves, [WaveOf(chunk, byId, |chunk|)], ChunkWaves(From(group, i + k), byId, k));
  }

  /** The loop over the tasks that must run alone. */
  method MakeSoloWaves(solo: seq<Id>, byId: Tasks) returns (waves: seq<Wave>)
    requires Known(byId, solo)
    ensures waves == SoloWaves(solo, byId)
  {
    waves := [];
    for i := 0 to |solo|
      invariant waves == SoloWaves(solo, byId)[..i]
    {
      var w := MakeWave([solo[i]], byId, 1);
      waves := waves + [w];
    }
  }

  /** A chunk of one task is passed as a bare id, which `_make_wave` wraps again. */
  method MakeChunk(chunk: seq<Id>, byId: Tasks) returns (w: Wave)
    requires Known(byId, chunk) && chunk != []
    ensures w == WaveOf(chunk, byId, |chunk|)
  {
    if |chunk| == 1 {
      assert chunk == [chunk[0]];
      w := MakeWave([chunk[0]], byId, 1);
    } else {
      w := MakeWave(chunk, byId, |chunk|);
    }
  }

  /** The loop over the parallel group, `maxParallel` tasks at a time. */
  method MakeChunkWaves(group: seq<Id>, byId: Tasks, maxParallel: nat) returns (waves: seq<Wave>)
    requires maxParallel >= 1 && Known(byId, group)
    ensures waves == ChunkWaves(group, byId, maxParallel)
  {
    waves := [];
    ghost var all := ChunkWaves(group, byId, maxParallel);
    var i := 0;
    while i < |group|
      invariant Complete(waves, group, byId, maxParallel, i) == all
    {
      var chunk := ChunkAt(group, i, maxParallel);
      var w := MakeChunk(chunk, byId);
      ChunkStep(group, byId, maxParallel, i, waves);
      waves, i := waves + [w], i + maxParallel;
    }
  }

  /** `_split_layer_into_waves` */
  method SplitLayerIntoWaves(layer: seq<Id>, byId: Tasks, maxParallel: nat) returns (waves: seq<Wave>)
    requires maxParallel >= 1 && Known(byId, layer) && Distinct(layer)
    ensures waves == LayerWaves(layer, byId, maxParallel)
  {
    KeepElements(layer, byId, false);
    KeepElements(layer, byId, true);
    var solo := MakeSoloWaves(Keep(layer, byId, false), byId);
    var chunks := MakeChunkWaves(Keep(layer, byId, true), byId, maxParallel);
    waves := solo + chunks;
  }

  // ---- the plan ----

  ghost predicate KnownLayers(byId: Tasks, layers: seq<seq<Id>>) {
    forall l :: 0 <= l < |layers| ==> Known(byId, layers[l]) && Distinct(layers[l])
  }

  ghost function AllWaves(layers: seq<seq<Id>>, byId: Tasks, k: nat): seq<Wave>
    requires k >= 1 && KnownLayers(byId, layers)
  {
    if layers == [] then []
    else AllWaves(layers[..|layers| - 1], byId, k) + LayerWaves(Last(layers), byId, k)
  }

  ghost function Numbered(waves: seq<Wave>): seq<Wave> {
    seq(|waves|, i requires 0 <= i < |waves| => waves[i].(number := i + 1))
  }

  /** Two different parallel-safe tasks at the same depth write the same file. */
  ghost predicate Collide(byId: Tasks, x: Id, y: Id, d: nat, f: string) {
    && x != y && x in byId && y in byId
    && byId[x].parallelSafe && byId[y].parallelSafe && f in byId[x].files && f in byId[y].files
    && IsDepth(DependencyGraph(byId), x, d) && IsDepth(DependencyGraph(byId), y, d)
  }

  ghost predicate Collision(byId: Tasks) {
    exists x, y, d, f :: Collide(byId, x, y, d, f)
  }

  /** When a task list can be planned, said without the scheduler's own steps. */
  ghost predicate Schedulable(tasks: seq<TaskNode>, maxParallel: int) {
    && maxParallel >= 1
    && UniqueIds(tasks)
    && !Cyclic(DependencyGraph(ById(tasks)))
    && !Dangling(DependencyGraph(ById(tasks)))
    && !Collision(ById(tasks))
  }

  ghost predicate Repeated(tasks: seq<TaskNode>, x: Id) {
    exists i, j :: 0 <= i < j < |tasks| && tasks[i].id == x && tasks[j].id == x
  }

  /** What a reported issue says about the tasks; each issue implies the earlier checks passed. */
  ghost predicate Explains(tasks: seq<TaskNode>, maxParallel: int, issue: Issue) {
    var byId := ById(tasks);
    var g := DependencyGraph(byId);
    if maxParallel < 1 then issue == MaxParallelTooSmall
    else if !UniqueIds(tasks) then
      issue.DuplicateIds? && IsSorted(issue.tasks) && forall x :: x in issue.tasks <==> Repeated(tasks, x)
    else if Cyclic(g) then issue.CycleFound? && IsCycle(g, issue.cycle)
    else if Dangling(g) then
      issue.Unresolvable? && IsSorted(issue.tasks) && forall x :: x in issue.tasks <==> x in byId && Doomed(g, x)
    else
      issue.WriteOverlap? && Le(issue.first, issue.second) &&
      exists d :: Collide(byId, issue.first, issue.second, d, issue.file)
  }

  lemma LayersKnown(byId: Tasks)
    ensures var g := DependencyGraph(byId); KnownLayers(byId, SortedAll(Layers(g)))
  {
    var g := DependencyGraph(byId);
    PeelPartitions(g, g.Keys);
    forall l, i | 0 <= l < |Layers(g)| && 0 <= i < |Sorted(Layers(g)[l])|
      ensures Sorted(Layers(g)[l])[i] in byId
    {
      assert Sorted(Layers(g)[l])[i] in Elements(Sorted(Layers(g)[l]));
      assert InLayer(Layers(g), l, Sorted(Layers(g)[l])[i]);
    }
  }

  /** A clash inside a layer is a collision at that depth. */
  lemma ClashCollides(byId: Tasks, l: nat, i: int, j: int, f: string)
    requires var g := DependencyGraph(byId);
      l < |Layers(g)| && Known(byId, Sorted(Layers(g)[l])) && Clash(byId, Sorted(Layers(g)[l]), i, j, f)
    ensures var layer := Sorted(Layers(DependencyGraph(byId))[l]);
      Collide(byId, layer[i], layer[j], l, f) && Le(layer[i], layer[j])
  {
    var g := DependencyGraph(byId);
    var layer := Sorted(Layers(g)[l]);
    assert layer[i] in Elements(layer) && layer[j] in Elements(layer);
    LayerIffDepth(g, layer[i], l);
    LayerIffDepth(g, layer[j], l);
  }

  /** A collision shows up as a clash inside the layer of that depth. */
  lemma CollisionClashes(byId: Tasks, x: Id, y: Id, d: nat, f: string)
    requires Unscheduled(DependencyGraph(byId)) == {} && Collide(byId, x, y, d, f)
    requires KnownLayers(byId, SortedAll(Layers(DependencyGraph(byId))))
    ensures var layers := SortedAll(Layers(DependencyGraph(byId)));
      d < |layers| && exists i, j :: Clash(byId, layers[d], i, j, f)
  {
    var g := DependencyGraph(byId);
    UnscheduledIffDoomed(g, x);
    UnscheduledIffDoomed(g, y);
    LayerIffDepth(g, x, d);
    LayerIffDepth(g, y, d);
    var layer := SortedAll(Layers(g))[d];
    assert x in Elements(layer) && y in Elements(layer);
    var i :| 0 <= i < |layer| && layer[i] == x;
    var j :| 0 <= j < |layer| && layer[j] == y;
    if i < j {
      assert Clash(byId, layer, i, j, f);
    } else {
      assert Clash(byId, layer, j, i, f);
    }
  }

  lemma RepeatedIff(tasks: seq<TaskNode>, x: Id)
    ensures x in DuplicateSet(tasks) <==> Repeated(tasks, x)
  {
    var ids := TaskIds(tasks);
    if i, j :| 0 <= i < j < |tasks| && tasks[i].id == x && tasks[j].id == x {
      CountTwice(ids, i, j);
      assert tasks[i] in tasks;
    }
    if x in DuplicateSet(tasks) {
      var i, j := CountedTwice(ids, x);
      assert tasks[i].id == x && tasks[j].id == x;
    }
  }

  lemma {:induction false} CountedTwice(ids: seq<Id>, x: Id) returns (i: nat, j: nat)
    requires Count(ids, x) > 1
    ensures i < j < |ids| && ids[i] == x && ids[j] == x
  {
    var n := |ids| - 1;
    if ids[n] == x {
      CountPositive(ids[..n], x);
      i :| 0 <= i < n && ids[..n][i] == x;
      j := n;
    } else {
      i, j := CountedTwice(ids[..n], x);
    }
  }

  lemma DuplicatesIff(tasks: seq<TaskNode>)
    ensures UniqueIds(tasks) <==> DuplicateSet(tasks) == {}
    ensures forall x :: x in Sorted(DuplicateSet(tasks)) <==> Repeated(tasks, x)
  {
    forall x ensures x in DuplicateSet(tasks) <==> Repeated(tasks, x) { RepeatedIff(tasks, x); }
    assert forall x :: x in Sorted(DuplicateSet(tasks)) <==> x in Elements(Sorted(DuplicateSet(tasks)));
    if i, j :| 0 <= i < j < |tasks| && tasks[i].id == tasks[j].id { assert Repeated(tasks, tasks[i].id); }
  }

  /** The run of `plan_waves` after its cycle check. */
  method PlanAcyclic(tasks: seq<TaskNode>, maxParallel: int) returns (plan: Plan)
    requires maxParallel >= 1 && UniqueIds(tasks) && !Cyclic(DependencyGraph(ById(tasks)))
    ensures plan.valid <==> Schedulable(tasks, maxParallel)
    ensures plan.valid ==> plan.issues == [] && Planned(ById(tasks), maxParallel, plan.waves)
    ensures !plan.valid ==>
      plan.waves == [] && |plan.issues| == 1 && Explains(tasks, maxParallel, plan.issues[0])
  {
    var byId := ById(tasks);
    ghost var g := DependencyGraph(byId);
    var layers, unscheduled := LayeredKahn(tasks);
    AllScheduledIff(g);
    if unscheduled != [] {
      UnresolvableExplained(g);
      return Plan(false, [], [Unresolvable(unscheduled)]);
    }
    assert Elements(unscheduled) == {};
    LayersKnown(byId);
    var overlap := DetectLayerOverlap(layers, byId);
    if overlap.Some? {
      ghost var l :| 0 <= l < |layers| && ClashIn(byId, layers[l], overlap.value);
      ghost var i, j :| Clash(byId, layers[l], i, j, overlap.value.file) &&
        layers[l][i] == overlap.value.first && layers[l][j] == overlap.value.second;
      ClashCollides(byId, l, i, j, overlap.value.file);
      return Plan(false, [], [overlap.value]);
    }
    NoClashNoCollision(byId, layers);
    var waves := SplitLayers(layers, byId, maxParallel);
    var numbered := NumberWaves(waves);
    plan := Plan(true, numbered, []);
  }

  /** The waves of a valid plan: the layers in order, each split, numbered from 1. */
  ghost predicate Planned(byId: Tasks, k: int, waves: seq<Wave>)
  {
    var layers := SortedAll(Layers(DependencyGraph(byId)));
    k >= 1 && KnownLayers(byId, layers) && waves == Numbered(AllWaves(layers, byId, k))
  }

  lemma UnresolvableExplained(g: Graph)
    ensures IsSorted(Sorted(Unscheduled(g)))
    ensures forall x :: x in Sorted(Unscheduled(g)) <==> x in g && Doomed(g, x)
  {
    PeelPartitions(g, g.Keys);
    forall x | x in g ensures x in Unscheduled(g) <==> Doomed(g, x) { UnscheduledIffDoomed(g, x); }
    assert forall x :: x in Sorted(Unscheduled(g)) <==> x in Elements(Sorted(Unscheduled(g)));
  }

  lemma NoClashNoCollision(byId: Tasks, layers: seq<seq<Id>>)
    requires Unscheduled(DependencyGraph(byId)) == {}
    requires layers == SortedAll(Layers(DependencyGraph(byId))) && KnownLayers(byId, layers)
    requires forall l, i, j, f :: 0 <= l < |layers| ==> !Clash(byId, layers[l], i, j, f)
    ensures !Collision(byId)
  {
    forall x, y, d, f | Collide(byId, x, y, d, f) ensures false {
      CollisionClashes(byId, x, y, d, f);
    }
  }

  method SplitLayers(layers: seq<seq<Id>>, byId: Tasks, maxParallel: nat) returns (waves: seq<Wave>)
    requires maxParallel >= 1 && KnownLayers(byId, layers)
    ensures waves == AllWaves(layers, byId, maxParallel)
  {
    waves := [];
    for l := 0 to |layers|
      invariant waves == AllWaves(layers[..l], byId, maxParallel)
    {
      var split := SplitLayerIntoWaves(layers[l], byId, maxParallel);
      assert layers[..l + 1][..l] == layers[..l];
      waves := waves + split;
    }
    assert layers[..|layers|] == layers;
  }

  method NumberWaves(waves: seq<Wave>) returns (numbered: seq<Wave>)
    ensures numbered == Numbered(waves)
  {
    numbered := waves;
    for i := 0 to |waves|
      invariant |numbered| == |waves|
      invariant forall j :: 0 <= j < |waves| ==>
        numbered[j] == if j < i then waves[j].(number := j + 1) else waves[j]
    {
      numbered := numbered[i := waves[i].(number := i + 1)];
    }
  }

  /** `plan_waves` */
  method PlanWaves(tasks: seq<TaskNode>, maxParallel: int) returns (plan: Plan)
    ensures plan.valid <==> Schedulable(tasks, maxParallel)
    ensures plan.valid ==> plan.issues == [] && Planned(ById(tasks), maxParallel, plan.waves)
    ensures !plan.valid ==>
      plan.waves == [] && |plan.issues| == 1 && Explains(tasks, maxParallel, plan.issues[0])
  {
    if maxParallel < 1 {
      return Plan(false, [], [MaxParallelTooSmall]);
    }
    var byId := ById(tasks);
    var duplicateIds := SortIds(DuplicateSet(tasks));
    DuplicatesIff(tasks);
    if duplicateIds != [] {
      return Plan(false, [], [DuplicateIds(duplicateIds)]);
    }
    assert Elements(duplicateIds) == {};
    ByIdEntries(tasks);
    var cycle := DetectCycle(tasks, byId);
    if cycle != [] {
      return Plan(false, [], [CycleFound(cycle)]);
    }
    plan := PlanAcyclic(tasks, maxParallel);
  }
}
