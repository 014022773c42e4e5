/** The scheduler's depth-first cycle search over `depends_on`. */
module WaveCycle {
  import opened Ids
  import opened Graphs
  import opened WaveTasks

  datatype Color = White | Gray | Black

  function Colored(color: map<Id, Color>, c: Color): set<Id> {
    set x | x in color && color[x] == c
  }

  /** Gray nodes are the stack, a walk; finished nodes are closed and carry no cycle. */
  ghost predicate Searching(g: Graph, color: map<Id, Color>, stack: seq<Id>) {
    && color.Keys == g.Keys
    && (stack != [] ==> Walk(g, stack))
    && Distinct(stack)
    && Colored(color, Gray) == Elements(stack)
    && Closed(g, Colored(color, Black))
    && AcyclicOn(g, Colored(color, Black))
  }

  lemma SearchStart(g: Graph, color: map<Id, Color>)
    requires color.Keys == g.Keys && forall x :: x in color ==> color[x] == White
    ensures Searching(g, color, [])
  {
    assert Colored(color, Black) == {};
    assert forall w: seq<Id> :: w != [] ==> w[0] in Elements(w);
  }

  lemma SearchEnter(g: Graph, color: map<Id, Color>, stack: seq<Id>, node: Id)
    requires Searching(g, color, stack) && node in g && color[node] == White
    requires stack != [] ==> Edge(g, Last(stack), node)
    ensures Searching(g, color[node := Gray], stack + [node])
    ensures Colored(color[node := Gray], White) == Colored(color, White) - {node}
    ensures Colored(color[node := Gray], Black) == Colored(color, Black)
  {
    if stack != [] { WalkSnoc(g, stack, node); }
    assert node !in Colored(color, Gray);
    assert forall x :: x in Elements(stack + [node]) <==> x in Elements(stack) || x == node;
    assert Colored(color[node := Gray], Gray) == Colored(color, Gray) + {node};
    assert Colored(color[node := Gray], Black) == Colored(color, Black);
  }

  lemma SearchBackEdge(g: Graph, color: map<Id, Color>, stack: seq<Id>, dep: Id, idx: nat)
    requires Searching(g, color, stack) && idx < |stack| && stack[idx] == dep
    requires Edge(g, Last(stack), dep)
    ensures IsCycle(g, stack[idx..] + [dep])
  {
    WalkSlice(g, stack, idx, |stack|);
    WalkSnoc(g, stack[idx..], dep);
  }

  lemma SearchLeave(g: Graph, color: map<Id, Color>, stack: seq<Id>)
    requires Searching(g, color, stack) && stack != [] && Last(stack) in color
    requires forall y :: Edge(g, Last(stack), y) && y in g ==> color[y] == Black
    ensures Searching(g, color[Last(stack) := Black], stack[..|stack| - 1])
    ensures Colored(color[Last(stack) := Black], White) == Colored(color, White)
    ensures Colored(color[Last(stack) := Black], Black) == Colored(color, Black) + {Last(stack)}
  {
    var n := |stack| - 1;
    var node := stack[n];
    assert node in Elements(stack);
    assert node in Colored(color, Gray) && node !in Colored(color, Black);
    FinishNode(g, Colored(color, Black), node);
    var color' := color[node := Black];
    assert Colored(color', Black) == Colored(color, Black) + {node};
    assert Colored(color', Gray) == Colored(color, Gray) - {node};
    forall x | x in Elements(stack) - {node} ensures x in Elements(stack[..n]) {
      var i :| 0 <= i < |stack| && stack[i] == x;
      assert stack[..n][i] == x;
    }
    assert Elements(stack[..n]) == Elements(stack) - {node};
    if n > 0 { WalkSlice(g, stack, 0, n); }
  }

  /** What a search may do to colours: white only shrinks, black only grows. */
  ghost predicate Advanced(before: map<Id, Color>, after: map<Id, Color>) {
    && Colored(after, White) <= Colored(before, White)
    && Colored(before, Black) <= Colored(after, Black)
  }

  lemma SearchDone(g: Graph, color: map<Id, Color>)
    requires Searching(g, color, []) && forall x :: x in color ==> color[x] == Black
    ensures !Cyclic(g)
  {
    assert Colored(color, Black) == g.Keys;
    AcyclicOnAll(g);
  }

  /** The variables that the nested `dfs` function closes over. */
  class CycleFinder {
    const byId: Tasks
    ghost const g: Graph
    var color: map<Id, Color>
    var stack: seq<Id>

    constructor (byId: Tasks)
      ensures this.byId == byId && g == DependencyGraph(byId) && Valid() && stack == []
    {
      this.byId := byId;
      g := DependencyGraph(byId);
      color := map x | x in byId :: White;
      stack := [];
      new;
      SearchStart(g, color);
    }

    ghost predicate Valid()
      reads this
    {
      g == DependencyGraph(byId) && Searching(g, color, stack)
    }

    method Dfs(node: Id) returns (found: seq<Id>)
      requires Valid() && node in Colored(color, White)
      requires stack != [] ==> Edge(g, Last(stack), node)
      modifies this
      ensures found == [] ==> Valid() && stack == old(stack)
      ensures found == [] ==> Advanced(old(color), color) && node in Colored(color, Black)
      ensures found != [] ==> IsCycle(g, found)
      decreases Colored(color, White), 0
    {
      SearchEnter(g, color, stack, node);
      color := color[node := Gray];
      stack := stack + [node];
      ghost var entered, path := color, stack;
      var deps := byId[node].dependsOn;
      var i := 0;
      while i < |deps|
        invariant i <= |deps| && Valid() && stack == path
        invariant forall j :: 0 <= j < i && deps[j] in byId ==> deps[j] in Colored(color, Black)
        invariant Advanced(entered, color)
      {
        found := Follow(node, deps[i]);
        if found != [] {
          return;
        }
        i := i + 1;
      }
      SearchLeave(g, color, stack);
      color := color[node := Black];
      stack := stack[..|stack| - 1];
      found := [];
    }

    /** The body of the loop over `depends_on`: skip an unknown id, report a gray one, search a white one. */
    method Follow(node: Id, dep: Id) returns (found: seq<Id>)
      requires Valid() && stack != [] && node == Last(stack) && node in byId && dep in byId[node].dependsOn
      modifies this
      ensures found == [] ==> Valid() && stack == old(stack) && Advanced(old(color), color)
      ensures found == [] && dep in byId ==> dep in Colored(color, Black)
      ensures found != [] ==> IsCycle(g, found)
      decreases Colored(color, White), 1
    {
      found := [];
      if dep in byId {
        assert Edge(g, node, dep);
        if color[dep] == Gray {
          assert dep in Colored(color, Gray);
          var idx := IndexOf(stack, dep);
          SearchBackEdge(g, color, stack, dep, idx);
          found := stack[idx..] + [dep];
        } else if color[dep] == White {
          found := Dfs(dep);
        }
      }
    }
  }

  /** `_detect_cycle`: a closed walk along `depends_on`, or nothing exactly when there is none. */
  method DetectCycle(tasks: seq<TaskNode>, byId: Tasks) returns (cycle: seq<Id>)
    requires byId.Keys == Elements(TaskIds(tasks))
    ensures cycle == [] <==> !Cyclic(DependencyGraph(byId))
    ensures cycle != [] ==> IsCycle(DependencyGraph(byId), cycle)
  {
    var finder := new CycleFinder(byId);
    var i := 0;
    while i < |tasks|
      invariant i <= |tasks|
      invariant finder.Valid() && finder.byId == byId && finder.stack == []
      invariant Elements(TaskIds(tasks[..i])) <= Colored(finder.color, Black)
    {
      var id := tasks[i].id;
      assert TaskIds(tasks[..i + 1]) == TaskIds(tasks[..i]) + [id];
      assert id == TaskIds(tasks)[i];
      assert id !in Colored(finder.color, Gray);
      if finder.color[id] == White {
        cycle := finder.Dfs(id);
        if cycle != [] {
          return;
        }
      }
      i := i + 1;
    }
    assert tasks[..i] == tasks;
    SearchDone(finder.g, finder.color);
    cycle := [];
  }
}
