/**
 What the wave scheduler works on: tasks with `depends_on` lists, and the waves and issues
 that a plan is made of.
 */
module WaveTasks {
  import opened Ids
  import opened Graphs

  datatype TaskNode = TaskNode(id: Id, dependsOn: seq<Id>, files: set<string>, parallelSafe: bool)

  /** One wave; `number` is 0 until the plan numbers its waves. */
  datatype Wave = Wave(
    number: nat, tasks: seq<Id>, writeSets: map<Id, seq<string>>, parallelism: nat,
    disjoint: bool, parallelSafeAll: bool)

  datatype Issue =
    | MaxParallelTooSmall                                // E_WAVE007
    | DuplicateIds(tasks: seq<Id>)                       // E_WAVE006
    | CycleFound(cycle: seq<Id>)                         // E_WAVE001
    | Unresolvable(tasks: seq<Id>)                       // E_WAVE005
    | WriteOverlap(first: Id, second: Id, file: string)  // E_WAVE002

  datatype Plan = Plan(valid: bool, waves: seq<Wave>, issues: seq<Issue>)

  type Tasks = map<Id, TaskNode>

  // ---- the task list as a dictionary and as a graph ----

  function TaskIds(tasks: seq<TaskNode>): seq<Id> {
    seq(|tasks|, i requires 0 <= i < |tasks| => tasks[i].id)
  }

  predicate UniqueIds(tasks: seq<TaskNode>) {
    forall i, j :: 0 <= i < j < |tasks| ==> tasks[i].id != tasks[j].id
  }

  /** `{t.id: t for t in tasks}`: a later task replaces an earlier one of the same id. */
  function ById(tasks: seq<TaskNode>): Tasks {
    if tasks == [] then map[]
    else ById(tasks[..|tasks| - 1])[Last(tasks).id := Last(tasks)]
  }

  lemma {:induction false} ByIdEntries(tasks: seq<TaskNode>)
    ensures ById(tasks).Keys == Elements(TaskIds(tasks))
    ensures forall x :: x in ById(tasks) ==> ById(tasks)[x].id == x && ById(tasks)[x] in tasks
  {
    if tasks != [] {
      var n := |tasks| - 1;
      ByIdEntries(tasks[..n]);
      assert tasks == tasks[..n] + [tasks[n]];
      assert TaskIds(tasks) == TaskIds(tasks[..n]) + [tasks[n].id];
    }
  }

  /** Ids that occur more than once. */
  function DuplicateSet(tasks: seq<TaskNode>): set<Id> {
    set t | t in tasks && Count(TaskIds(tasks), t.id) > 1 :: t.id
  }

  function DependencyGraph(byId: Tasks): Graph {
    map x | x in byId :: Elements(byId[x].dependsOn)
  }

  lemma {:induction false} ByIdUnique(tasks: seq<TaskNode>, i: nat)
    requires UniqueIds(tasks) && i < |tasks|
    ensures tasks[i].id in ById(tasks) && ById(tasks)[tasks[i].id] == tasks[i]
  {
    var n := |tasks| - 1;
    assert tasks == tasks[..n] + [tasks[n]];
    if i < n {
      ByIdUnique(tasks[..n], i);
    }
  }
}
