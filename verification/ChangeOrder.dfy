/**
 `topological_sort` with in-degree counters and a queue, and what it omits: exactly the
 changes that reach a cycle or an unknown id.
 */
module ChangeOrder {
  import opened Ids
  import opened Graphs
  import opened ChangeGraph

  /** The nodes with an edge to `x`. */
  ghost function Preds(graph: Graph, x: Id): set<Id> {
    set d | d in graph && x in graph[d]
  }

  /** The number of edges into `x` from nodes outside `done`. */
  ghost function Open(graph: Graph, x: Id, done: set<Id>): nat {
    |Preds(graph, x) - done|
  }

  lemma OpenSame(graph: Graph, x: Id, done: set<Id>, node: Id)
    requires node in graph && x !in graph[node]
    ensures Open(graph, x, done + {node}) == Open(graph, x, done)
  {
    assert Preds(graph, x) - (done + {node}) == Preds(graph, x) - done;
  }

  lemma OpenDrops(graph: Graph, x: Id, done: set<Id>, node: Id)
    requires node in graph && x in graph[node] && node !in done
    ensures Open(graph, x, done + {node}) == Open(graph, x, done) - 1
  {
    assert node in Preds(graph, x) - done;
    assert Preds(graph, x) - (done + {node}) == (Preds(graph, x) - done) - {node};
  }

  ghost predicate Counting(graph: Graph, inDegree: map<Id, int>, done: set<Id>) {
    && inDegree.Keys == graph.Keys
    && forall x :: x in graph ==> inDegree[x] == Open(graph, x, done)
  }

  /** Counters while the dependents of `node` are lowered one by one; `left` are still to come. */
  ghost predicate CountingPart(graph: Graph, inDegree: map<Id, int>, done: set<Id>, node: Id, left: set<Id>) {
    && inDegree.Keys == graph.Keys
    && forall x :: x in graph ==>
         inDegree[x] == if x in left then Open(graph, x, done) else Open(graph, x, done + {node})
  }

  lemma CountingBegins(graph: Graph, inDegree: map<Id, int>, done: set<Id>, node: Id)
    requires Counting(graph, inDegree, done) && node in graph
    ensures CountingPart(graph, inDegree, done, node, graph[node])
  {
    forall x | x in graph && x !in graph[node] ensures inDegree[x] == Open(graph, x, done + {node}) {
      OpenSame(graph, x, done, node);
    }
  }

  lemma CountingLowers(graph: Graph, inDegree: map<Id, int>, done: set<Id>, node: Id, left: set<Id>, y: Id)
    requires CountingPart(graph, inDegree, done, node, left) && node in graph && node !in done
    requires y in left && y in graph[node] && y in graph
    ensures CountingPart(graph, inDegree[y := inDegree[y] - 1], done, node, left - {y})
    ensures inDegree[y] - 1 == Open(graph, y, done + {node})
  {
    OpenDrops(graph, y, done, node);
  }

  /** The graph of dependents has an edge `d -> c` exactly when `c` declares `d`. */
  lemma DependentsEdge(changes: Changes, d: Id, c: Id)
    ensures Edge(Dependents(changes), d, c) <==> Edge(DependsOn(changes), c, d)
  {}

  lemma PredsAreDependencies(changes: Changes, x: Id)
    ensures Preds(Dependents(changes), x) == if x in changes then Elements(changes[x].dependsOn) else {}
  {
    forall d ensures d in Preds(Dependents(changes), x) <==> Edge(Dependents(changes), d, x) {}
    forall d { DependentsEdge(changes, d, x); }
  }

  // ---- counting the in-degrees ----

  ghost predicate CountedUpTo(graph: Graph, inDegree: map<Id, int>, left: set<Id>) {
    && inDegree.Keys == graph.Keys
    && forall x :: x in graph ==> inDegree[x] == Open(graph, x, left)
  }

  /** The counters of one node's dependents are each one higher. */
  ghost predicate Raised(graph: Graph, d: Id, before: map<Id, int>, after: map<Id, int>)
    requires d in graph
  {
    && after.Keys == before.Keys
    && forall x :: x in before ==> after[x] == before[x] + (if x in graph[d] then 1 else 0)
  }

  lemma CountOne(graph: Graph, before: map<Id, int>, after: map<Id, int>, left: set<Id>, d: Id)
    requires CountedUpTo(graph, before, left) && d in left && d in graph && Raised(graph, d, before, after)
    ensures CountedUpTo(graph, after, left - {d})
  {
    forall x | x in graph
      ensures Open(graph, x, left - {d}) == Open(graph, x, left) + (if x in graph[d] then 1 else 0)
    {
      OpenGrows(graph, x, left, d);
    }
  }

  lemma OpenGrows(graph: Graph, x: Id, left: set<Id>, d: Id)
    requires d in left && d in graph
    ensures Open(graph, x, left - {d}) == Open(graph, x, left) + (if x in graph[d] then 1 else 0)
  {
    var rest := left - {d};
    assert rest + {d} == left;
    if x in graph[d] { OpenDrops(graph, x, rest, d); } else { OpenSame(graph, x, rest, d); }
  }

  lemma CountNone(graph: Graph, inDegree: map<Id, int>)
    requires inDegree == map x | x in graph :: 0
    ensures CountedUpTo(graph, inDegree, graph.Keys)
  {
    forall x | x in graph ensures Open(graph, x, graph.Keys) == 0 {
      assert Preds(graph, x) - graph.Keys == {};
    }
  }

  ghost predicate TargetsKnown(graph: Graph) {
    forall d, x :: Edge(graph, d, x) ==> x in graph
  }

  /** Raise the counter of every dependent of one node. */
  method RaiseAll(graph: Graph, inDegree: map<Id, int>, d: Id) returns (raised: map<Id, int>)
    requires d in graph && TargetsKnown(graph) && inDegree.Keys == graph.Keys
    ensures Raised(graph, d, inDegree, raised)
  {
    raised := inDegree;
    var left := graph[d];
    while left != {}
      invariant left <= graph[d] && raised.Keys == inDegree.Keys
      invariant forall x :: x in inDegree ==>
        raised[x] == inDegree[x] + (if x in graph[d] && x !in left then 1 else 0)
      decreases left
    {
      var x :| x in left;
      assert Edge(graph, d, x);
      left := left - {x};
      raised := raised[x := raised[x] + 1];
    }
  }

  /** The first loops of `topological_sort`. */
  method InDegrees(graph: Graph) returns (inDegree: map<Id, int>)
    requires TargetsKnown(graph)
    ensures Counting(graph, inDegree, {})
  {
    inDegree := map x | x in graph :: 0;
    var left := graph.Keys;
    CountNone(graph, inDegree);
    while left != {}
      invariant left <= graph.Keys && CountedUpTo(graph, inDegree, left)
      decreases left
    {
      var d :| d in left;
      var raised := RaiseAll(graph, inDegree, d);
      CountOne(graph, inDegree, raised, left, d);
      left := left - {d};
      inDegree := raised;
    }
  }

  // ---- the queue ----

  lemma OpenZero(graph: Graph, x: Id, done: set<Id>)
    ensures Open(graph, x, done) == 0 <==> Preds(graph, x) <= done
  {
    var rest := Preds(graph, x) - done;
    assert forall d :: d in rest <==> d in Preds(graph, x) && d !in done;
    assert |rest| == 0 <==> rest == {};
  }

  /** `order` lists changes without repeats, each after everything it waits for. */
  ghost predicate Ordered(graph: Graph, changes: Changes, order: seq<Id>) {
    && Distinct(order) && Elements(order) <= changes.Keys
    && forall i :: 0 <= i < |order| ==> Preds(graph, order[i]) <= Elements(order[..i])
  }

  /** Finished nodes then queued nodes: exactly the changes that wait for nothing unfinished. */
  ghost predicate Queued(graph: Graph, changes: Changes, result: seq<Id>, queue: seq<Id>) {
    && Ordered(graph, changes, result) && Distinct(result + queue)
    && forall x :: x in result + queue <==> x in changes && x in graph && Preds(graph, x) <= Elements(result)
  }

  /** While the dependents of the last finished node are lowered, those in `left` are not queued yet. */
  ghost predicate QueuedPart(graph: Graph, changes: Changes, result: seq<Id>, queue: seq<Id>, left: set<Id>) {
    && Ordered(graph, changes, result) && Distinct(result + queue)
    && forall x :: x in result + queue <==>
         x in changes && x in graph && x !in left && Preds(graph, x) <= Elements(result)
  }

  lemma OrderedAppend(graph: Graph, changes: Changes, order: seq<Id>, x: Id)
    requires Ordered(graph, changes, order) && x !in order && x in changes && Preds(graph, x) <= Elements(order)
    ensures Ordered(graph, changes, order + [x])
  {
    var order' := order + [x];
    assert Elements(order') == Elements(order) + {x};
    forall i | 0 <= i < |order'| ensures Preds(graph, order'[i]) <= Elements(order'[..i]) {
      if i < |order| { assert order'[..i] == order[..i]; } else { assert order'[..i] == order; }
    }
  }

  lemma QueueHead(graph: Graph, changes: Changes, result: seq<Id>, queue: seq<Id>)
    requires Queued(graph, changes, result, queue) && queue != []
    ensures queue[0] in graph && queue[0] in changes && queue[0] !in result
    ensures Ordered(graph, changes, result + [queue[0]])
    ensures result + [queue[0]] + queue[1..] == result + queue
  {
    var node := queue[0];
    assert (result + queue)[|result|] == node;
    assert node in result + queue;
    assert forall i :: 0 <= i < |result| ==> (result + queue)[i] == result[i];
    OrderedAppend(graph, changes, result, node);
  }

  /** Taking the head of the queue: its dependents are now the only ones that may be missing. */
  lemma Dequeue(graph: Graph, changes: Changes, result: seq<Id>, queue: seq<Id>)
    requires Queued(graph, changes, result, queue) && queue != [] && queue[0] in graph
    requires Ordered(graph, changes, result + [queue[0]])
    requires result + [queue[0]] + queue[1..] == result + queue
    ensures QueuedPart(graph, changes, result + [queue[0]], queue[1..], graph[queue[0]])
  {
    var node := queue[0];
    assert Elements(result + [node]) == Elements(result) + {node};
    forall x | x in changes && x in graph
      ensures Preds(graph, x) <= Elements(result) <==> x !in graph[node] && Preds(graph, x) <= Elements(result) + {node}
    {
      assert node in Preds(graph, x) <==> x in graph[node];
      assert node !in Elements(result) by { QueueHead(graph, changes, result, queue); }
    }
  }

  lemma EnqueueIf(graph: Graph, changes: Changes, result: seq<Id>, queue: seq<Id>, left: set<Id>, y: Id)
    requires QueuedPart(graph, changes, result, queue, left) && y in left && y in graph
    ensures var ready := y in changes && Preds(graph, y) <= Elements(result);
      QueuedPart(graph, changes, result, if ready then queue + [y] else queue, left - {y})
  {
    assert y !in result + queue;
    assert result + (queue + [y]) == (result + queue) + [y];
  }

  /** The loop over the neighbors of the node just finished. */
  method LowerDependents(
    graph: Graph, changes: Changes, node: Id, result: seq<Id>, queue: seq<Id>, inDegree: map<Id, int>)
    returns (queue': seq<Id>, lowered: map<Id, int>)
    requires node in graph && TargetsKnown(graph) && result != [] && Last(result) == node
    requires node !in result[..|result| - 1]
    requires Counting(graph, inDegree, Elements(result[..|result| - 1]))
    requires QueuedPart(graph, changes, result, queue, graph[node])
    ensures Counting(graph, lowered, Elements(result)) && Queued(graph, changes, result, queue')
  {
    ghost var done := Elements(result[..|result| - 1]);
    FinishedSet(result);
    CountingBegins(graph, inDegree, done, node);
    queue', lowered := queue, inDegree;
    var left := graph[node];
    while left != {}
      invariant left <= graph[node]
      invariant CountingPart(graph, lowered, done, node, left)
      invariant QueuedPart(graph, changes, result, queue', left)
      decreases left
    {
      var y :| y in left;
      assert Edge(graph, node, y);
      CountingLowers(graph, lowered, done, node, left, y);
      lowered := lowered[y := lowered[y] - 1];
      OpenZero(graph, y, done + {node});
      EnqueueIf(graph, changes, result, queue', left, y);
      if lowered[y] == 0 && y in changes {
        queue' := queue' + [y];
      }
      left := left - {y};
    }
  }

  lemma FinishedSet(result: seq<Id>)
    requires result != []
    ensures Elements(result) == Elements(result[..|result| - 1]) + {Last(result)}
  {
    assert result == result[..|result| - 1] + [Last(result)];
  }

  lemma ReadyIsQueued(graph: Graph, changes: Changes, inDegree: map<Id, int>, queue: seq<Id>)
    requires Counting(graph, inDegree, {}) && Distinct(queue)
    requires forall x :: x in queue <==> x in inDegree && inDegree[x] == 0 && x in changes
    ensures Queued(graph, changes, [], queue)
  {
    assert [] + queue == queue && Elements<Id>([]) == {};
    forall x | x in graph ensures inDegree[x] == 0 <==> Preds(graph, x) <= {} { OpenZero(graph, x, {}); }
  }

  /** The initial queue, in whatever order the counters are listed. */
  method StartQueue(graph: Graph, changes: Changes, inDegree: map<Id, int>) returns (queue: seq<Id>)
    requires Counting(graph, inDegree, {})
    ensures Queued(graph, changes, [], queue)
  {
    queue := ListOf(set x | x in inDegree && inDegree[x] == 0 && x in changes);
    assert forall x :: x in queue <==> x in Elements(queue);
    ReadyIsQueued(graph, changes, inDegree, queue);
  }

  /** An order of some changes, and nothing is left that waits only for listed changes. */
  ghost predicate SortResult(changes: Changes, result: seq<Id>) {
    && Ordered(Dependents(changes), changes, result)
    && forall x :: x in changes && x !in result ==> !(Preds(Dependents(changes), x) <= Elements(result))
  }

  /** `topological_sort` on the graph of the changes. */
  method TopologicalSort(graph: Graph, changes: Changes) returns (result: seq<Id>)
    requires graph == Dependents(changes)
    ensures SortResult(changes, result)
  {
    KnownTargets(changes);
    result := SortQueued(graph, changes);
  }

  method SortQueued(graph: Graph, changes: Changes) returns (result: seq<Id>)
    requires TargetsKnown(graph) && changes.Keys <= graph.Keys
    ensures Ordered(graph, changes, result)
    ensures forall x :: x in changes && x !in result ==> !(Preds(graph, x) <= Elements(result))
  {
    var inDegree := InDegrees(graph);
    var queue := StartQueue(graph, changes, inDegree);
    result := [];
    assert Elements(result) == {};
    while queue != []
      invariant Counting(graph, inDegree, Elements(result)) && Queued(graph, changes, result, queue)
      decreases changes.Keys - Elements(result)
    {
      var node := queue[0];
      QueueHead(graph, changes, result, queue);
      Dequeue(graph, changes, result, queue);
      FinishedPrefix(result, node);
      result := result + [node];
      queue, inDegree := LowerDependents(graph, changes, node, result, queue[1..], inDegree);
    }
    assert result + [] == result;
  }

  lemma FinishedPrefix(result: seq<Id>, node: Id)
    ensures (result + [node])[..|result + [node]| - 1] == result && Last(result + [node]) == node
    ensures Elements(result + [node]) == Elements(result) + {node}
  {}

  lemma KnownTargets(changes: Changes)
    ensures TargetsKnown(Dependents(changes)) && changes.Keys <= Dependents(changes).Keys
  {}
}
