/** The cycle search and the topological sort agree, though they walk the graph in opposite directions. */
module ChangeAgreement {
  import opened Ids
  import opened Graphs
  import opened ChangeGraph
  import opened ChangeOrder

  /** Every dependency of a listed change stands earlier in the list. */
  lemma DependenciesComeFirst(changes: Changes, result: seq<Id>, i: nat, d: Id)
    requires SortResult(changes, result) && i < |result| && result[i] in changes && d in changes[result[i]].dependsOn
    ensures d in result[..i]
  {
    PredsAreDependencies(changes, result[i]);
    assert d in Elements(result[..i]);
  }

  ghost function Position(result: seq<Id>): map<Id, nat> {
    map x | x in Elements(result) :: IndexOf(result, x)
  }

  lemma ListedIsRanked(changes: Changes, result: seq<Id>)
    requires SortResult(changes, result)
    ensures Ranked(DependsOn(changes), Elements(result), Position(result))
  {
    forall x, y | x in Elements(result) && x in changes && y in DependsOn(changes)[x]
      ensures y in Elements(result) && IndexOf(result, y) < IndexOf(result, x)
    {
      var i := IndexOf(result, x);
      DependenciesComeFirst(changes, result, i, y);
      var j :| 0 <= j < i && result[..i][j] == y;
      assert result[j] == y;
      assert j == IndexOf(result, y);
    }
  }

  lemma OmittedIsStuck(changes: Changes, result: seq<Id>)
    requires SortResult(changes, result)
    ensures Stuck(DependsOn(changes), changes.Keys - Elements(result))
  {
    var g := DependsOn(changes);
    forall x | x in changes.Keys - Elements(result)
      ensures exists y :: Edge(g, x, y) && (y !in g || y in changes.Keys - Elements(result))
    {
      PredsAreDependencies(changes, x);
      var y :| y in Preds(Dependents(changes), x) && y !in Elements(result);
      assert Edge(g, x, y);
    }
  }

  /** The sort omits exactly the changes that reach a cycle or an unknown id. */
  lemma OmittedIffDoomed(changes: Changes, result: seq<Id>, x: Id)
    requires SortResult(changes, result) && x in changes
    ensures x !in result <==> Doomed(DependsOn(changes), x)
  {
    if x in result {
      ListedIsRanked(changes, result);
      RankedIsNotDoomed(DependsOn(changes), Elements(result), Position(result), x);
    } else {
      OmittedIsStuck(changes, result);
      StuckIsDoomed(DependsOn(changes), changes.Keys - Elements(result), x);
    }
  }

  // ---- cycles in the reversed graph ----

  function Reverse(w: seq<Id>): seq<Id> {
    seq(|w|, i requires 0 <= i < |w| => w[|w| - 1 - i])
  }

  lemma ReversedCycle(g: Graph, h: Graph, w: seq<Id>)
    requires IsCycle(g, w) && forall x, y :: Edge(g, x, y) ==> Edge(h, y, x)
    ensures IsCycle(h, Reverse(w))
  {
    var v := Reverse(w);
    forall i, j | 0 <= i && j == i + 1 < |v| ensures Edge(h, v[i], v[j]) {
      assert Edge(g, w[|w| - 1 - j], w[|w| - 1 - i]);
    }
  }

  lemma SameCycles(changes: Changes)
    ensures Cyclic(Dependents(changes)) <==> Cyclic(DependsOn(changes))
  {
    var g, h := DependsOn(changes), Dependents(changes);
    forall x, y ensures Edge(g, x, y) <==> Edge(h, y, x) { DependentsEdge(changes, y, x); }
    if w :| IsCycle(g, w) { ReversedCycle(g, h, w); }
    if w :| IsCycle(h, w) { ReversedCycle(h, g, w); }
  }

  /** With all dependencies known, the sort lists every change exactly when no cycle is reported. */
  lemma SortIsCompleteIffAcyclic(changes: Changes, result: seq<Id>)
    requires SortResult(changes, result) && !Dangling(DependsOn(changes))
    ensures Elements(result) == changes.Keys <==> !Cyclic(Dependents(changes))
  {
    var g := DependsOn(changes);
    SameCycles(changes);
    DoomedIffCyclicOrDangling(g);
    forall x | x in changes ensures x !in result <==> Doomed(g, x) { OmittedIffDoomed(changes, result, x); }
    assert Elements(result) == changes.Keys <==> forall x :: x in changes ==> x in Elements(result);
    assert forall x :: x in g <==> x in changes;
  }
}
