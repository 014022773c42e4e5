/** `detect_cycles`: the depth-first search that collects every back edge it meets. */
module ChangeCycles {
  import opened Ids
  import opened Graphs

  /** Every node a search of the graph can visit. */
  function Nodes(g: Graph): set<Id> {
    g.Keys + set x, y | x in g && y in g[x] :: y
  }

  /** What the search knows: the stack is a walk, and while no cycle is found none is closed. */
  ghost predicate Searching(g: Graph, visited: set<Id>, stack: seq<Id>, cycles: seq<seq<Id>>) {
    && visited <= Nodes(g) && Elements(stack) <= visited && Distinct(stack)
    && (stack != [] ==> Walk(g, stack))
    && (forall i :: 0 <= i < |cycles| ==> IsCycle(g, cycles[i]))
    && (cycles == [] ==> Closed(g, visited - Elements(stack)) && AcyclicOn(g, visited - Elements(stack)))
  }

  lemma SearchStart(g: Graph)
    ensures Searching(g, {}, [], [])
  {
    assert forall w: seq<Id> :: w != [] ==> w[0] in Elements(w);
  }

  lemma SearchEnter(g: Graph, visited: set<Id>, stack: seq<Id>, cycles: seq<seq<Id>>, node: Id)
    requires Searching(g, visited, stack, cycles) && node in Nodes(g) && node !in visited
    requires stack != [] ==> Edge(g, Last(stack), node)
    ensures Searching(g, visited + {node}, stack + [node], cycles)
  {
    if stack != [] { WalkSnoc(g, stack, node); }
    assert node !in Elements(stack);
    assert Elements(stack + [node]) == Elements(stack) + {node};
    assert visited + {node} - Elements(stack + [node]) == visited - Elements(stack);
  }

  lemma SearchBackEdge(g: Graph, visited: set<Id>, stack: seq<Id>, cycles: seq<seq<Id>>, y: Id, idx: nat)
    requires Searching(g, visited, stack, cycles) && idx < |stack| && stack[idx] == y && Edge(g, Last(stack), y)
    ensures Searching(g, visited, stack, cycles + [stack[idx..] + [y]])
  {
    WalkSlice(g, stack, idx, |stack|);
    WalkSnoc(g, stack[idx..], y);
  }

  lemma SearchLeave(g: Graph, visited: set<Id>, stack: seq<Id>, cycles: seq<seq<Id>>)
    requires Searching(g, visited, stack, cycles) && stack != []
    requires cycles == [] ==> forall y :: Edge(g, Last(stack), y) ==> y in visited - Elements(stack)
    ensures Searching(g, visited, stack[..|stack| - 1], cycles)
  {
    var n := |stack| - 1;
    var node := stack[n];
    var front := stack[..n];
    DropLast(stack);
    assert visited - Elements(front) == visited - Elements(stack) + {node} by {
      assert node in Elements(stack);
    }
    if n > 0 { WalkSlice(g, stack, 0, n); }
    if cycles == [] {
      if node in g {
        forall y | y in g[node] && y in g ensures y in visited - Elements(stack) {
          assert Edge(g, node, y);
        }
        FinishNode(g, visited - Elements(stack), node);
      } else {
        FinishLeaf(g, visited - Elements(stack), node);
      }
    }
  }

  lemma DropLast(stack: seq<Id>)
    requires stack != [] && Distinct(stack)
    ensures Elements(stack[..|stack| - 1]) == Elements(stack) - {Last(stack)}
  {
    var n := |stack| - 1;
    forall x | x in Elements(stack) - {stack[n]} ensures x in Elements(stack[..n]) {
      var i :| 0 <= i < |stack| && stack[i] == x;
      assert stack[..n][i] == x;
    }
  }

  /** A node without outgoing edges closes no cycle. */
  lemma FinishLeaf(g: Graph, B: set<Id>, n: Id)
    requires Closed(g, B) && AcyclicOn(g, B) && n !in g
    ensures Closed(g, B + {n}) && AcyclicOn(g, B + {n})
  {
    forall w | IsCycle(g, w) ensures !(Elements(w) <= B + {n}) {
      assert Edge(g, w[0], w[1]);
      var i := CycleLeaves(g, B, w);
      assert Edge(g, w[i], w[i + 1]) && w[i] in Elements(w);
    }
  }

  /** Some node of a cycle, other than its repeated last one, lies outside an acyclic set. */
  lemma CycleLeaves(g: Graph, B: set<Id>, w: seq<Id>) returns (i: nat)
    requires AcyclicOn(g, B) && IsCycle(g, w)
    ensures i < |w| - 1 && w[i] !in B
  {
    var x :| x in Elements(w) && x !in B;
    var j :| 0 <= j < |w| && w[j] == x;
    i := if j == |w| - 1 then 0 else j;
  }

  lemma SearchDone(g: Graph, visited: set<Id>, cycles: seq<seq<Id>>)
    requires Searching(g, visited, [], cycles) && g.Keys <= visited
    ensures cycles == [] <==> !Cyclic(g)
  {
    if cycles == [] {
      assert visited - Elements([]) == visited;
      AcyclicOnSubset(g, visited);
    } else {
      assert IsCycle(g, cycles[0]);
    }
  }

  lemma AcyclicOnSubset(g: Graph, B: set<Id>)
    requires AcyclicOn(g, B) && g.Keys <= B
    ensures !Cyclic(g)
  {
    forall w | IsCycle(g, w) ensures !(Elements(w) <= g.Keys) {
      assert !(Elements(w) <= B);
    }
    AcyclicOnAll(g);
  }

  /** The variables that the nested `visit` function closes over. */
  class CycleCollector {
    const graph: Graph
    var visited: set<Id>
    var recursionStack: seq<Id>
    var cycles: seq<seq<Id>>

    constructor (graph: Graph)
      ensures this.graph == graph && Valid() && recursionStack == []
    {
      this.graph := graph;
      visited := {};
      recursionStack := [];
      cycles := [];
      new;
      SearchStart(graph);
    }

    ghost predicate Valid()
      reads this
    {
      Searching(graph, visited, recursionStack, cycles)
    }

    method Visit(node: Id)
      requires Valid() && node in Nodes(graph) && node !in visited
      requires recursionStack != [] ==> Edge(graph, Last(recursionStack), node)
      modifies this
      ensures Valid() && recursionStack == old(recursionStack)
      ensures old(visited) + {node} <= visited && old(cycles) <= cycles
      decreases Nodes(graph) - visited, 0
    {
      SearchEnter(graph, visited, recursionStack, cycles, node);
      visited := visited + {node};
      recursionStack := recursionStack + [node];
      ghost var path, seen := recursionStack, visited;
      var left := if node in graph then graph[node] else {};
      while left != {}
        invariant Valid() && recursionStack == path && seen <= visited && old(cycles) <= cycles
        invariant forall y :: y in left ==> Edge(graph, node, y)
        invariant cycles == [] ==> forall y :: Edge(graph, node, y) && y !in left ==> y in visited - Elements(path)
        decreases left
      {
        var y :| y in left;
        left := left - {y};
        Follow(y);
      }
      SearchLeave(graph, visited, recursionStack, cycles);
      recursionStack := recursionStack[..|recursionStack| - 1];
    }

    /** The body of the loop over a node's neighbors. */
    method Follow(y: Id)
      requires Valid() && recursionStack != [] && Edge(graph, Last(recursionStack), y)
      modifies this
      ensures Valid() && recursionStack == old(recursionStack)
      ensures old(visited) <= visited && old(cycles) <= cycles
      ensures cycles == [] ==> y in visited - Elements(recursionStack)
      decreases Nodes(graph) - visited, 1
    {
      if y in recursionStack {
        var idx := IndexOf(recursionStack, y);
        SearchBackEdge(graph, visited, recursionStack, cycles, y, idx);
        cycles := cycles + [recursionStack[idx..] + [y]];
      } else if y !in visited {
        Visit(y);
      }
    }
  }

  /** `detect_cycles`: every reported cycle is one, and none is reported only if there is none. */
  method DetectCycles(graph: Graph) returns (cycles: seq<seq<Id>>)
    ensures forall i :: 0 <= i < |cycles| ==> IsCycle(graph, cycles[i])
    ensures cycles == [] <==> !Cyclic(graph)
  {
    var search := new CycleCollector(graph);
    var left := graph.Keys;
    while left != {}
      invariant search.Valid() && search.graph == graph && search.recursionStack == []
      invariant left <= graph.Keys <= search.visited + left
      decreases left
    {
      var node :| node in left;
      left := left - {node};
      if node !in search.visited {
        search.Visit(node);
      }
    }
    SearchDone(graph, search.visited, search.cycles);
    cycles := search.cycles;
  }
}
