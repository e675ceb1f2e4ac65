// Plan task graphs: well-formedness, status coherence, and cycle detection.
module Plans {
  import opened Records
  import Graphs
  import Kahn

  predicate TaskNamed(tasks: seq<PlanTask>, id: string) {
    exists i :: 0 <= i < |tasks| && tasks[i].id == id
  }

  predicate UniqueTasks(tasks: seq<PlanTask>) {
    forall i, j :: 0 <= i < j < |tasks| ==> tasks[i].id != tasks[j].id
  }

  predicate DependenciesKnown(tasks: seq<PlanTask>) {
    forall i, k :: 0 <= i < |tasks| && 0 <= k < |tasks[i].dependsOn| ==> TaskNamed(tasks, tasks[i].dependsOn[k])
  }

  predicate InputsKnown(tasks: seq<PlanTask>) {
    forall i, k :: 0 <= i < |tasks| && 0 <= k < |tasks[i].inputsFrom| ==> TaskNamed(tasks, tasks[i].inputsFrom[k])
  }

  predicate TasksWellFormed(tasks: seq<PlanTask>) {
    tasks != [] && UniqueTasks(tasks) && DependenciesKnown(tasks) && InputsKnown(tasks)
  }

  predicate StatusCoherent(tasks: seq<PlanTask>, status: PlanStatus) {
    match status
    case PlanRunning => exists i :: 0 <= i < |tasks| && (tasks[i].status.TaskPending? || tasks[i].status.TaskRunning?)
    case PlanCompleted => forall i :: 0 <= i < |tasks| ==> tasks[i].status.TaskDone?
    case PlanAbandoned =>
      && (forall i :: 0 <= i < |tasks| ==> !tasks[i].status.TaskPending? && !tasks[i].status.TaskRunning?)
      && (exists i :: 0 <= i < |tasks| && (tasks[i].status.TaskFailed? || tasks[i].status.TaskSkipped?))
  }

  // ----- Cycle detection ---------------------------------------------------------

  function NodesOf(tasks: seq<PlanTask>): (nodes: seq<Kahn.Node<string>>)
    ensures |nodes| == |tasks|
  {
    seq(|tasks|, i requires 0 <= i < |tasks| => Kahn.Node(tasks[i].id, tasks[i].dependsOn))
  }

  ghost predicate DependsOn(tasks: seq<PlanTask>, a: string, b: string) {
    exists i :: 0 <= i < |tasks| && tasks[i].id == a && b in tasks[i].dependsOn
  }

  /** A chain of `depends_on` entries that comes back to where it started. */
  ghost predicate DependencyCycle(tasks: seq<PlanTask>, p: seq<string>) {
    |p| >= 2 && p[0] == p[|p| - 1] && forall i :: 0 <= i < |p| - 1 ==> DependsOn(tasks, p[i], p[i + 1])
  }

  ghost predicate Cyclic(tasks: seq<PlanTask>) {
    exists p :: DependencyCycle(tasks, p)
  }

  lemma EdgeIsDependency(tasks: seq<PlanTask>, a: string, b: string)
    requires UniqueTasks(tasks)
    ensures Kahn.UniqueNodes(NodesOf(tasks))
    ensures Graphs.Edge(Kahn.GraphOf(NodesOf(tasks)), a, b) <==> DependsOn(tasks, a, b)
  {
    var nodes := NodesOf(tasks);
    Kahn.EdgeMeaning(nodes, a, b);
    if DependsOn(tasks, a, b) {
      var i :| 0 <= i < |tasks| && tasks[i].id == a && b in tasks[i].dependsOn;
      assert nodes[i].id == a && b in nodes[i].dependsOn;
    }
    if i :| 0 <= i < |nodes| && nodes[i].id == a && b in nodes[i].dependsOn {
      assert tasks[i].id == a && b in tasks[i].dependsOn;
    }
  }

  lemma CyclesAgree(tasks: seq<PlanTask>)
    requires UniqueTasks(tasks)
    ensures Graphs.Cyclic(Kahn.GraphOf(NodesOf(tasks))) <==> Cyclic(tasks)
  {
    var g := Kahn.GraphOf(NodesOf(tasks));
    if Graphs.Cyclic(g) {
      var p :| Graphs.IsCycle(g, p);
      forall i | 0 <= i < |p| - 1
        ensures DependsOn(tasks, p[i], p[i + 1])
      {
        assert Graphs.Edge(g, p[i], p[i + 1]);
        EdgeIsDependency(tasks, p[i], p[i + 1]);
      }
      assert DependencyCycle(tasks, p);
    }
    if Cyclic(tasks) {
      var p :| DependencyCycle(tasks, p);
      forall i | 0 <= i < |p| - 1
        ensures Graphs.Edge(g, p[i], p[i + 1])
      {
        EdgeIsDependency(tasks, p[i], p[i + 1]);
      }
      assert Graphs.IsCycle(g, p);
    }
  }

  /** The search reports a cycle exactly when the plan has one. */
  method HasCycle(tasks: seq<PlanTask>) returns (cyclic: bool)
    requires UniqueTasks(tasks) && DependenciesKnown(tasks)
    ensures cyclic <==> Cyclic(tasks)
  {
    var nodes := NodesOf(tasks);
    forall i, b | 0 <= i < |nodes| && b in nodes[i].dependsOn
      ensures b in Kahn.Ids(nodes)
    {
      var k :| 0 <= k < |tasks[i].dependsOn| && tasks[i].dependsOn[k] == b;
      assert TaskNamed(tasks, tasks[i].dependsOn[k]);
      var j :| 0 <= j < |tasks| && tasks[j].id == b;
      assert nodes[j].id == b;
    }
    cyclic := Kahn.FindsCycle(nodes);
    CyclesAgree(tasks);
  }
}
