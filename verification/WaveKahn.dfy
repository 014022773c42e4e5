/** Layered Kahn peeling with in-degree counters. */
module WaveKahn {
  import opened Ids
  import opened Graphs
  import opened WaveTasks

  /** The tasks of `rem` all of whose dependencies have been peeled. */
  ghost function Ready(g: Graph, rem: set<Id>): set<Id> {
    set x | x in rem && x in g && g[x] <= g.Keys - rem
  }

  ghost function Peel(g: Graph, rem: set<Id>): seq<set<Id>> {
    var r := Ready(g, rem);
    if r == {} then [] else [r] + Peel(g, rem - r)
  }

  /** The tasks that are never ready. */
  ghost function Leftover(g: Graph, rem: set<Id>): set<Id> {
    var r := Ready(g, rem);
    if r == {} then rem else Leftover(g, rem - r)
  }

  lemma PeelStep(g: Graph, rem: set<Id>, peeled: seq<set<Id>>, all: seq<set<Id>>)
    requires Ready(g, rem) != {} && peeled + Peel(g, rem) == all
    ensures peeled + [Ready(g, rem)] + Peel(g, rem - Ready(g, rem)) == all
    ensures SortedAll(peeled + [Ready(g, rem)]) == SortedAll(peeled) + [Sorted(Ready(g, rem))]
    ensures Leftover(g, rem) == Leftover(g, rem - Ready(g, rem))
  {
    var r := Ready(g, rem);
    assert peeled + ([r] + Peel(g, rem - r)) == peeled + [r] + Peel(g, rem - r);
  }

  lemma PeelEnd(g: Graph, rem: set<Id>, peeled: seq<set<Id>>, all: seq<set<Id>>)
    requires Ready(g, rem) == {} && peeled + Peel(g, rem) == all
    ensures peeled == all && Leftover(g, rem) == rem
  {
    assert peeled + [] == peeled;
  }

  ghost function SortedAll(layers: seq<set<Id>>): seq<seq<Id>> {
    seq(|layers|, i requires 0 <= i < |layers| => Sorted(layers[i]))
  }

  /** The in-degree the counters stand for: dependency entries not yet peeled, repeats counted. */
  ghost function Outstanding(deps: seq<Id>, done: set<Id>): nat {
    if deps == [] then 0
    else Outstanding(deps[..|deps| - 1], done) + (if Last(deps) in done then 0 else 1)
  }

  lemma {:induction false} OutstandingPeel(deps: seq<Id>, done: set<Id>, x: Id)
    requires x !in done
    ensures Outstanding(deps, done + {x}) == Outstanding(deps, done) - Count(deps, x)
  {
    if deps != [] {
      var n := |deps| - 1;
      OutstandingPeel(deps[..n], done, x);
      assert deps == deps[..n] + [deps[n]];
    }
  }

  lemma {:induction false} OutstandingZero(deps: seq<Id>, done: set<Id>)
    ensures Outstanding(deps, done) == 0 <==> Elements(deps) <= done
  {
    if deps != [] {
      var n := |deps| - 1;
      OutstandingZero(deps[..n], done);
      assert deps == deps[..n] + [deps[n]];
      assert forall x :: x in Elements(deps) <==> x in Elements(deps[..n]) || x == deps[n];
    }
  }

  lemma {:induction false} OutstandingAll(deps: seq<Id>)
    ensures Outstanding(deps, {}) == |deps|
  {
    if deps != [] {
      OutstandingAll(deps[..|deps| - 1]);
    }
  }

  /** `dependents[d]` lists each task once per occurrence of `d` in its `depends_on`. */
  ghost predicate Inverted(byId: Tasks, dependents: map<Id, seq<Id>>) {
    && dependents.Keys == byId.Keys
    && (forall d, x :: d in byId && x in byId ==> Count(dependents[d], x) == Count(byId[x].dependsOn, d))
    && (forall d, x :: d in byId && x in dependents[d] ==> x in byId)
  }

  ghost predicate Counting(byId: Tasks, inDegree: map<Id, int>, done: set<Id>) {
    && inDegree.Keys == byId.Keys
    && forall x :: x in byId ==> inDegree[x] == Outstanding(byId[x].dependsOn, done)
  }

  /** How often task `k` has been entered for `d` once task `i`'s list is read up to entry `j`. */
  ghost function Entered(tasks: seq<TaskNode>, i: nat, j: nat, k: nat, d: Id): nat
    requires k < |tasks| && (i < |tasks| ==> j <= |tasks[i].dependsOn|)
  {
    if k < i then Count(tasks[k].dependsOn, d)
    else if k == i then Count(tasks[k].dependsOn[..j], d)
    else 0
  }

  ghost predicate InvertedUpTo(tasks: seq<TaskNode>, i: nat, j: nat, dependents: map<Id, seq<Id>>)
    requires i < |tasks| ==> j <= |tasks[i].dependsOn|
  {
    && dependents.Keys == ById(tasks).Keys
    && (forall d, k :: d in dependents && 0 <= k < |tasks| ==>
          Count(dependents[d], tasks[k].id) == Entered(tasks, i, j, k, d))
    && (forall d, x :: d in dependents && x in dependents[d] ==> x in dependents)
  }

  function Enter(dependents: map<Id, seq<Id>>, dep: Id, tid: Id): map<Id, seq<Id>> {
    if dep in dependents then dependents[dep := dependents[dep] + [tid]] else dependents
  }

  lemma EnterOne(tasks: seq<TaskNode>, i: nat, j: nat, dependents: map<Id, seq<Id>>)
    requires UniqueIds(tasks) && i < |tasks| && j < |tasks[i].dependsOn|
    requires InvertedUpTo(tasks, i, j, dependents)
    ensures InvertedUpTo(tasks, i, j + 1, Enter(dependents, tasks[i].dependsOn[j], tasks[i].id))
  {
    var t := tasks[i];
    var dep := t.dependsOn[j];
    assert t.dependsOn[..j + 1] == t.dependsOn[..j] + [dep];
    assert t.id in dependents by { ByIdUnique(tasks, i); }
    forall d, k | d in dependents && 0 <= k < |tasks|
      ensures Count(Enter(dependents, dep, t.id)[d], tasks[k].id) == Entered(tasks, i, j + 1, k, d)
    {
      CountSnoc(dependents[d], t.id, tasks[k].id);
      CountSnoc(t.dependsOn[..j], dep, d);
    }
  }

  lemma EnterRow(tasks: seq<TaskNode>, i: nat, dependents: map<Id, seq<Id>>)
    requires i < |tasks| && InvertedUpTo(tasks, i, |tasks[i].dependsOn|, dependents)
    ensures InvertedUpTo(tasks, i + 1, 0, dependents)
  {
    assert tasks[i].dependsOn[..|tasks[i].dependsOn|] == tasks[i].dependsOn;
    assert i + 1 < |tasks| ==> tasks[i + 1].dependsOn[..0] == [];
  }

  lemma EnterAll(tasks: seq<TaskNode>, dependents: map<Id, seq<Id>>)
    requires UniqueIds(tasks) && InvertedUpTo(tasks, |tasks|, 0, dependents)
    ensures Inverted(ById(tasks), dependents)
  {
    ByIdEntries(tasks);
    forall d, x | d in ById(tasks) && x in ById(tasks)
      ensures Count(dependents[d], x) == Count(ById(tasks)[x].dependsOn, d)
    {
      var k :| 0 <= k < |tasks| && TaskIds(tasks)[k] == x;
      ByIdUnique(tasks, k);
      assert tasks[k].id == x && d in dependents;
      assert Count(dependents[d], tasks[k].id) == Entered(tasks, |tasks|, 0, k, d);
    }
  }

  /** The first loop of `_layered_kahn`. */
  method InvertDependencies(tasks: seq<TaskNode>) returns (dependents: map<Id, seq<Id>>)
    requires UniqueIds(tasks)
    ensures Inverted(ById(tasks), dependents)
  {
    dependents := map x | x in ById(tasks) :: [];
    assert |tasks| > 0 ==> tasks[0].dependsOn[..0] == [];
    for i := 0 to |tasks|
      invariant InvertedUpTo(tasks, i, 0, dependents)
    {
      for j := 0 to |tasks[i].dependsOn|
        invariant InvertedUpTo(tasks, i, j, dependents)
      {
        EnterOne(tasks, i, j, dependents);
        dependents := Enter(dependents, tasks[i].dependsOn[j], tasks[i].id);
      }
      EnterRow(tasks, i, dependents);
    }
    EnterAll(tasks, dependents);
  }

  /** Counters part-way through one ready task: `gone` of its dependents are already lowered. */
  ghost predicate CountingLess(byId: Tasks, inDegree: map<Id, int>, done: set<Id>, gone: seq<Id>) {
    && inDegree.Keys == byId.Keys
    && forall x :: x in byId ==> inDegree[x] == Outstanding(byId[x].dependsOn, done) - Count(gone, x)
  }

  lemma LoweredAll(byId: Tasks, dependents: map<Id, seq<Id>>, inDegree: map<Id, int>, done: set<Id>, tid: Id)
    requires Inverted(byId, dependents) && tid in byId && tid !in done
    requires CountingLess(byId, inDegree, done, dependents[tid])
    ensures Counting(byId, inDegree, done + {tid})
  {
    forall x | x in byId ensures inDegree[x] == Outstanding(byId[x].dependsOn, done + {tid}) {
      OutstandingPeel(byId[x].dependsOn, done, tid);
    }
  }

  /** The innermost loop: lower the counter of every dependent of one peeled task. */
  method LowerDependents(
    byId: Tasks, dependents: map<Id, seq<Id>>, tid: Id, inDegree: map<Id, int>, ghost done: set<Id>)
    returns (lowered: map<Id, int>)
    requires Inverted(byId, dependents) && tid in byId && tid !in done && Counting(byId, inDegree, done)
    ensures Counting(byId, lowered, done + {tid})
  {
    var deps := dependents[tid];
    lowered := inDegree;
    for j := 0 to |deps|
      invariant CountingLess(byId, lowered, done, deps[..j])
    {
      assert deps[..j + 1] == deps[..j] + [deps[j]];
      assert deps[j] in byId;
      forall x | x in byId { CountSnoc(deps[..j], deps[j], x); }
      lowered := lowered[deps[j] := lowered[deps[j]] - 1];
    }
    assert deps[..|deps|] == deps;
    LoweredAll(byId, dependents, lowered, done, tid);
  }

  /** The loop over one layer's ready tasks. */
  method PeelLayer(
    byId: Tasks, dependents: map<Id, seq<Id>>, ready: seq<Id>, remaining: set<Id>, inDegree: map<Id, int>)
    returns (left: set<Id>, lowered: map<Id, int>)
    requires Inverted(byId, dependents) && Distinct(ready) && Elements(ready) <= remaining <= byId.Keys
    requires Counting(byId, inDegree, byId.Keys - remaining)
    ensures left == remaining - Elements(ready)
    ensures Counting(byId, lowered, byId.Keys - left)
  {
    left, lowered := remaining, inDegree;
    for i := 0 to |ready|
      invariant left == remaining - Elements(ready[..i])
      invariant Counting(byId, lowered, byId.Keys - left)
    {
      var tid := ready[i];
      assert tid in Elements(ready);
      assert Elements(ready[..i + 1]) == Elements(ready[..i]) + {tid};
      assert tid !in Elements(ready[..i]);
      lowered := LowerDependents(byId, dependents, tid, lowered, byId.Keys - left);
      assert byId.Keys - (left - {tid}) == (byId.Keys - left) + {tid};
      left := left - {tid};
    }
    assert ready[..|ready|] == ready;
  }

  lemma CountingStart(byId: Tasks, inDegree: map<Id, int>)
    requires inDegree == map x | x in byId :: |byId[x].dependsOn|
    ensures Counting(byId, inDegree, byId.Keys - byId.Keys)
  {
    assert byId.Keys - byId.Keys == {};
    forall x | x in byId { OutstandingAll(byId[x].dependsOn); }
  }

  lemma ZeroIsReady(byId: Tasks, inDegree: map<Id, int>, rem: set<Id>)
    requires rem <= byId.Keys && Counting(byId, inDegree, byId.Keys - rem)
    ensures (set x | x in rem && inDegree[x] == 0) == Ready(DependencyGraph(byId), rem)
  {
    forall x | x in rem { OutstandingZero(byId[x].dependsOn, byId.Keys - rem); }
    assert DependencyGraph(byId).Keys == byId.Keys;
  }

  /** The layers so far and the tasks still to be peeled. */
  ghost predicate Peeling(g: Graph, remaining: set<Id>, layers: seq<seq<Id>>, peeled: seq<set<Id>>) {
    && remaining <= g.Keys && layers == SortedAll(peeled)
    && peeled + Peel(g, remaining) == Peel(g, g.Keys)
    && Leftover(g, remaining) == Leftover(g, g.Keys)
  }

  lemma PeelingStarts(g: Graph)
    ensures Peeling(g, g.Keys, [], [])
  {
    assert [] + Peel(g, g.Keys) == Peel(g, g.Keys);
  }

  lemma PeelingGoesOn(g: Graph, remaining: set<Id>, layers: seq<seq<Id>>, peeled: seq<set<Id>>)
    requires Peeling(g, remaining, layers, peeled) && Ready(g, remaining) != {}
    ensures Peeling(
      g, remaining - Ready(g, remaining), layers + [Sorted(Ready(g, remaining))], peeled + [Ready(g, remaining)])
  {
    PeelStep(g, remaining, peeled, Peel(g, g.Keys));
  }

  lemma PeelingEnds(g: Graph, remaining: set<Id>, layers: seq<seq<Id>>, peeled: seq<set<Id>>)
    requires Peeling(g, remaining, layers, peeled) && Ready(g, remaining) == {}
    ensures layers == SortedAll(Peel(g, g.Keys)) && remaining == Leftover(g, g.Keys)
  {
    PeelEnd(g, remaining, peeled, Peel(g, g.Keys));
  }

  /** `_layered_kahn`: the layers of ready tasks, and the tasks that never become ready. */
  method LayeredKahn(tasks: seq<TaskNode>) returns (layers: seq<seq<Id>>, unscheduled: seq<Id>)
    requires UniqueIds(tasks)
    ensures var g := DependencyGraph(ById(tasks));
            layers == SortedAll(Peel(g, g.Keys)) && unscheduled == Sorted(Leftover(g, g.Keys))
  {
    var byId := ById(tasks);
    ghost var g := DependencyGraph(byId);
    var dependents := InvertDependencies(tasks);
    var inDegree: map<Id, int> := map x | x in byId :: |byId[x].dependsOn|;
    CountingStart(byId, inDegree);
    var remaining := byId.Keys;
    assert g.Keys == remaining;
    layers := [];
    ghost var peeled: seq<set<Id>> := [];
    PeelingStarts(g);
    while remaining != {}
      invariant Peeling(g, remaining, layers, peeled)
      invariant Counting(byId, inDegree, byId.Keys - remaining)
      decreases remaining
    {
      var readySet := set tid | tid in remaining && inDegree[tid] == 0;
      ZeroIsReady(byId, inDegree, remaining);
      if readySet == {} {
        break;
      }
      PeelingGoesOn(g, remaining, layers, peeled);
      var ready := SortIds(readySet);
      layers := layers + [ready];
      peeled := peeled + [readySet];
      remaining, inDegree := PeelLayer(byId, dependents, ready, remaining, inDegree);
    }
    PeelingEnds(g, remaining, layers, peeled);
    unscheduled := SortIds(remaining);
  }
}
