/** The dependency graph of the open changes and its depth-first cycle search. */
module ChangeGraph {
  import opened Ids
  import opened Graphs

  /** An open or finished change with its declared dependencies and the scopes it writes. */
  datatype ChangeInfo = ChangeInfo(
    changeId: Id, status: string, dependsOn: seq<Id>, parallelSafe: bool, files: set<string>)

  type Changes = map<Id, ChangeInfo>

  /** Each change with the set of its declared dependencies, known or not. */
  ghost function DependsOn(changes: Changes): Graph {
    map c | c in changes :: Elements(changes[c].dependsOn)
  }

  function Mentioned(changes: Changes): set<Id> {
    changes.Keys + set c, d | c in changes && d in changes[c].dependsOn :: d
  }

  /** The adjacency map from each dependency to its dependents. */
  ghost function Dependents(changes: Changes): Graph {
    map d | d in Mentioned(changes) :: set c | c in changes && d in changes[c].dependsOn
  }

  function AddEdge(graph: Graph, d: Id, c: Id): Graph {
    if d in graph then graph[d := graph[d] + {c}] else graph[d := {c}]
  }

  /** Dependents entered once the changes of `done`, and the first `j` entries of `c`, are read. */
  ghost predicate EnteredUpTo(changes: Changes, done: set<Id>, c: Id, j: nat, graph: Graph) {
    && done <= changes.Keys && (c in changes ==> j <= |changes[c].dependsOn|)
    && (forall d :: d in graph ==> d in Mentioned(changes))
    && changes.Keys <= graph.Keys
    && (forall d, x :: Edge(graph, d, x) <==> x in changes && EnteredEdge(changes, done, c, j, d, x))
  }

  ghost predicate EnteredEdge(changes: Changes, done: set<Id>, c: Id, j: nat, d: Id, x: Id) {
    x in changes && if x in done then d in changes[x].dependsOn
                    else x == c && j <= |changes[x].dependsOn| && d in changes[x].dependsOn[..j]
  }

  lemma EnterEdge(changes: Changes, done: set<Id>, c: Id, j: nat, graph: Graph)
    requires c in changes && c !in done && j < |changes[c].dependsOn|
    requires EnteredUpTo(changes, done, c, j, graph)
    ensures EnteredUpTo(changes, done, c, j + 1, AddEdge(graph, changes[c].dependsOn[j], c))
  {
    var deps := changes[c].dependsOn;
    var graph' := AddEdge(graph, deps[j], c);
    assert deps[..j + 1] == deps[..j] + [deps[j]];
    assert deps[j] in deps && deps[j] in Mentioned(changes);
    forall d, x ensures Edge(graph', d, x) <==> x in changes && EnteredEdge(changes, done, c, j + 1, d, x) {
      assert Edge(graph', d, x) <==> Edge(graph, d, x) || (d == deps[j] && x == c);
    }
  }

  /** `build_dependency_graph` */
  method BuildDependencyGraph(changes: Changes) returns (graph: Graph)
    ensures graph == Dependents(changes)
  {
    graph := map c | c in changes :: {};
    var left := changes.Keys;
    while left != {}
      invariant left <= changes.Keys
      invariant EnteredUpTo(changes, changes.Keys - left, "", 0, graph)
      decreases left
    {
      var c :| c in left;
      ghost var done := changes.Keys - left;
      left := left - {c};
      var deps := changes[c].dependsOn;
      for j := 0 to |deps|
        invariant EnteredUpTo(changes, done, c, j, graph)
      {
        EnterEdge(changes, done, c, j, graph);
        graph := AddEdge(graph, deps[j], c);
      }
      EnterChange(changes, done, c, graph);
      assert changes.Keys - left == done + {c};
    }
    BuiltGraph(changes, graph);
  }

  lemma EnterChange(changes: Changes, done: set<Id>, c: Id, graph: Graph)
    requires c in changes && c !in done && EnteredUpTo(changes, done, c, |changes[c].dependsOn|, graph)
    ensures EnteredUpTo(changes, done + {c}, "", 0, graph)
  {
    assert changes[c].dependsOn[..|changes[c].dependsOn|] == changes[c].dependsOn;
  }

  lemma BuiltGraph(changes: Changes, graph: Graph)
    requires EnteredUpTo(changes, changes.Keys, "", 0, graph)
    ensures graph == Dependents(changes)
  {
    forall d | d in Mentioned(changes) ensures d in graph {
      if d !in changes {
        var c :| c in changes && d in changes[c].dependsOn;
        assert EnteredEdge(changes, changes.Keys, "", 0, d, c);
        assert Edge(graph, d, c);
      }
    }
    forall d | d in graph ensures graph[d] == Dependents(changes)[d] {
      forall x ensures x in graph[d] <==> x in Dependents(changes)[d] {
        assert Edge(graph, d, x) <==> x in changes && EnteredEdge(changes, changes.Keys, "", 0, d, x);
      }
    }
  }
}
