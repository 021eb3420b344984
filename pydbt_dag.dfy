/** The DAG of the pydbt generation: node i is the i-th task, a dependency is resolved to
    the first task with its qualified name, and a task without dependencies hangs off the
    source node "s". Levels group the nodes by breadth-first distance from "s". */
module PydbtDag {
  import opened Common
  import opened Graph
  import opened Levels

  /** The comprehension `[(tasks_names.index(name of f), index) for f in deps]`: it raises
      ValueError at the first dependency whose name no task has. */
  function DepEdges(names: seq<string>, deps: seq<Callable>, index: nat): (r: Result<seq<Edge>>)
    ensures r.Ok? <==> forall j :: 0 <= j < |deps| ==> QualifiedName(deps[j]) in names
    ensures r.Raised? ==> r.exc == ValueError
    ensures r.Ok? ==> |r.value| == |deps|
  {
    if deps == [] then Ok([])
    else
      match FirstIndex(names, QualifiedName(deps[0]))
      case None => Raised(ValueError)
      case Some(k) =>
        match DepEdges(names, deps[1..], index)
        case Raised(e) => Raised(e)
        case Ok(rest) => Ok([(Id(k), Id(index))] + rest)
  }

  /** The j-th edge of the comprehension comes from the first task named after the j-th
      dependency and goes to the task at `index`. */
  lemma {:induction false} DepEdge(names: seq<string>, deps: seq<Callable>, index: nat, j: nat)
    requires DepEdges(names, deps, index).Ok? && j < |deps|
    ensures QualifiedName(deps[j]) in names
    ensures DepEdges(names, deps, index).value[j] == (Id(FirstIndex(names, QualifiedName(deps[j])).value), Id(index))
  {
    if j > 0 {
      DepEdge(names, deps[1..], index, j - 1);
    }
  }

  /** The edges contributed by the task at `index`: one per dependency, or ("s", index)
      when it has none. */
  function TaskEdges(names: seq<string>, t: TaskView, index: nat): (r: Result<seq<Edge>>)
    ensures t.dependsOn == [] ==> r == Ok([(Source, Id(index))])
    ensures t.dependsOn != [] ==> r == DepEdges(names, t.dependsOn, index)
  {
    if t.dependsOn == [] then Ok([(Source, Id(index))]) else DepEdges(names, t.dependsOn, index)
  }

  /** Each edge a task contributes enters its own node, from "s" exactly when it has no
      dependencies, and otherwise from the first task named after one of them. */
  lemma TaskEdgeShape(names: seq<string>, t: TaskView, index: nat, e: Edge)
    requires TaskEdges(names, t, index).Ok? && e in TaskEdges(names, t, index).value
    ensures e.1 == Id(index)
    ensures t.dependsOn == [] <==> e.0 == Source
    ensures t.dependsOn != [] ==> exists j :: (0 <= j < |t.dependsOn| && QualifiedName(t.dependsOn[j]) in names
      && e.0 == Id(FirstIndex(names, QualifiedName(t.dependsOn[j])).value))
  {
    if t.dependsOn != [] {
      var es := TaskEdges(names, t, index).value;
      var j :| 0 <= j < |es| && es[j] == e;
      DepEdge(names, t.dependsOn, index, j);
    }
  }

  /** A task with dependencies contributes an edge from the first task named after each. */
  lemma TaskEdgeFrom(names: seq<string>, t: TaskView, index: nat, j: nat)
    requires TaskEdges(names, t, index).Ok? && j < |t.dependsOn|
    ensures QualifiedName(t.dependsOn[j]) in names
    ensures (Id(FirstIndex(names, QualifiedName(t.dependsOn[j])).value), Id(index)) in TaskEdges(names, t, index).value
  {
    DepEdge(names, t.dependsOn, index, j);
  }

  /** The edge list after the first n tasks, or the error the first failing one raised. */
  function EdgesUpTo(tasks: seq<TaskView>, names: seq<string>, n: nat): (r: Result<seq<Edge>>)
    requires n <= |tasks|
  {
    if n == 0 then Ok([])
    else
      match EdgesUpTo(tasks, names, n - 1)
      case Raised(e) => Raised(e)
      case Ok(es) =>
        match TaskEdges(names, tasks[n - 1], n - 1)
        case Raised(e) => Raised(e)
        case Ok(more) => Ok(es + more)
  }

  /** A successful prefix is the previous one followed by the last task's edges. */
  lemma EdgesUpToSnoc(tasks: seq<TaskView>, names: seq<string>, n: nat, e: Edge)
    requires 0 < n <= |tasks| && EdgesUpTo(tasks, names, n).Ok?
    ensures EdgesUpTo(tasks, names, n - 1).Ok? && TaskEdges(names, tasks[n - 1], n - 1).Ok?
    ensures e in EdgesUpTo(tasks, names, n).value <==>
      e in EdgesUpTo(tasks, names, n - 1).value || e in TaskEdges(names, tasks[n - 1], n - 1).value
  {
  }

  /** One more successful task appends its edges to the list so far. */
  lemma EdgesUpToNext(tasks: seq<TaskView>, names: seq<string>, n: nat)
    requires n < |tasks| && EdgesUpTo(tasks, names, n).Ok? && TaskEdges(names, tasks[n], n).Ok?
    ensures EdgesUpTo(tasks, names, n + 1)
            == Ok(EdgesUpTo(tasks, names, n).value + TaskEdges(names, tasks[n], n).value)
  {
  }

  /** The graph after `add_node(i, name=tasks[i].name)` for i < n. */
  function AddTaskNodes(g: DiGraph, tasks: seq<TaskView>, n: nat): (r: DiGraph)
    requires n <= |tasks|
    ensures g.edges == r.edges && g.nodes <= r.nodes
  {
    if n == 0 then g
    else AddNode(AddTaskNodes(g, tasks, n - 1), Id(n - 1), tasks[n - 1].name)
  }

  /** Each of the first n tasks has its node, named after the task. */
  lemma {:induction false} AddTaskNodesNames(g: DiGraph, tasks: seq<TaskView>, n: nat)
    requires n <= |tasks|
    ensures var r := AddTaskNodes(g, tasks, n);
            forall i :: 0 <= i < n ==> Id(i) in r.nodes && Id(i) in r.names && r.names[Id(i)] == tasks[i].name
  {
    if n > 0 {
      AddTaskNodesNames(g, tasks, n - 1);
    }
  }

  /** Adding task nodes keeps a graph well formed. */
  lemma {:induction false} AddTaskNodesWellFormed(g: DiGraph, tasks: seq<TaskView>, n: nat)
    requires n <= |tasks| && WellFormed(g)
    ensures WellFormed(AddTaskNodes(g, tasks, n))
  {
    if n > 0 {
      AddTaskNodesWellFormed(g, tasks, n - 1);
      AddNodeFacts(AddTaskNodes(g, tasks, n - 1), Id(n - 1), tasks[n - 1].name);
    }
  }

  /** Building succeeds iff every dependency names some task; the failure is ValueError. */
  lemma {:induction false} BuildSucceedsIff(tasks: seq<TaskView>, n: nat)
    requires n <= |tasks|
    ensures EdgesUpTo(tasks, TaskNames(tasks), n).Ok? <==>
      forall i, j :: 0 <= i < n && 0 <= j < |tasks[i].dependsOn| ==>
        QualifiedName(tasks[i].dependsOn[j]) in TaskNames(tasks)
    ensures EdgesUpTo(tasks, TaskNames(tasks), n).Raised? ==> EdgesUpTo(tasks, TaskNames(tasks), n).exc == ValueError
  {
    if n > 0 {
      BuildSucceedsIff(tasks, n - 1);
    }
  }

  /** Every edge among the first n tasks' enters a task node below n, and it enters node
      i iff task i contributed it. */
  lemma {:induction false} EdgeOwner(tasks: seq<TaskView>, names: seq<string>, n: nat, e: Edge)
    requires n <= |tasks| && EdgesUpTo(tasks, names, n).Ok?
    ensures e in EdgesUpTo(tasks, names, n).value <==>
      exists i :: 0 <= i < n && e.1 == Id(i) && TaskEdges(names, tasks[i], i).Ok? && e in TaskEdges(names, tasks[i], i).value
  {
    if n > 0 {
      EdgesUpToSnoc(tasks, names, n, e);
      EdgeOwner(tasks, names, n - 1, e);
      if e in TaskEdges(names, tasks[n - 1], n - 1).value {
        TaskEdgeShape(names, tasks[n - 1], n - 1, e);
      }
      forall i | 0 <= i < n && e.1 == Id(i) && TaskEdges(names, tasks[i], i).Ok? && e in TaskEdges(names, tasks[i], i).value
        ensures e in EdgesUpTo(tasks, names, n).value
      {
        if i < n - 1 {
          assert exists i' :: 0 <= i' < n - 1 && e.1 == Id(i') && TaskEdges(names, tasks[i'], i').Ok? && e in TaskEdges(names, tasks[i'], i').value;
        }
      }
    }
  }

  /** Every earlier task's edges have succeeded when the first n tasks' have. */
  lemma {:induction false} EdgesUpToOk(tasks: seq<TaskView>, names: seq<string>, n: nat, i: nat)
    requires i < n <= |tasks| && EdgesUpTo(tasks, names, n).Ok?
    ensures TaskEdges(names, tasks[i], i).Ok?
  {
    if i < n - 1 {
      EdgesUpToOk(tasks, names, n - 1, i);
    }
  }

  /** The graph `Dag(tasks)` builds, or the error its construction raises. */
  function Built(tasks: seq<TaskView>): Result<DiGraph>
  {
    var names := TaskNames(tasks);
    var n := |tasks|;
    match EdgesUpTo(tasks, names, n)
    case Ok(es) => Ok(AddEdgesFrom(AddTaskNodes(Empty, tasks, n), es))
    case Raised(e) => Raised(e)
  }

  /** The nodes of a successful build: 0 .. n-1 first and in order, each named after its
      task, then possibly "s", and nothing else. */
  lemma BuiltNodes(tasks: seq<TaskView>, v: Node)
    requires Built(tasks).Ok?
    ensures var g := Built(tasks).value;
      WellFormed(g)
      && Ids(|tasks|) <= g.nodes
      && (forall i :: 0 <= i < |tasks| ==> Id(i) in g.names && g.names[Id(i)] == tasks[i].name)
      && (v in g.nodes <==> (v == Source && Source in g.nodes) || v in Ids(|tasks|))
  {
    var names := TaskNames(tasks);
    var n := |tasks|;
    var es := EdgesUpTo(tasks, names, n).value;
    var g0 := AddTaskNodes(Empty, tasks, n);
    assert WellFormed(Empty);
    AddTaskNodesWellFormed(Empty, tasks, n);
    AddTaskNodesNames(Empty, tasks, n);
    AddEdgesFromWellFormed(g0, es);
    AddEdgesFromNodes(g0, es);
    IdsInOrder(tasks, n);
    if v in Endpoints(es) {
      EndpointsAreTasks(tasks, names, v);
    }
  }

  /** The nodes the edges of a successful build touch are "s" and task nodes. */
  lemma EndpointsAreTasks(tasks: seq<TaskView>, names: seq<string>, v: Node)
    requires names == TaskNames(tasks) && EdgesUpTo(tasks, names, |tasks|).Ok?
    requires v in Endpoints(EdgesUpTo(tasks, names, |tasks|).value)
    ensures v == Source || v in Ids(|tasks|)
  {
    var es := EdgesUpTo(tasks, names, |tasks|).value;
    var e :| e in es && (e.0 == v || e.1 == v);
    EndpointIsTask(tasks, names, e);
  }

  /** "s" is a node of a successful build iff some task has no dependencies. */
  lemma BuiltSource(tasks: seq<TaskView>)
    requires Built(tasks).Ok?
    ensures Source in Built(tasks).value.nodes <==> exists k :: 0 <= k < |tasks| && tasks[k].dependsOn == []
  {
    var names := TaskNames(tasks);
    var n := |tasks|;
    var es := EdgesUpTo(tasks, names, n).value;
    IdsInOrder(tasks, n);
    AddEdgesFromNodes(AddTaskNodes(Empty, tasks, n), es);
    IdsMember(n, Source);
    if Source in Endpoints(es) {
      var e :| e in es && (e.0 == Source || e.1 == Source);
      SourceEdgeOwner(tasks, names, e);
    }
    if k :| 0 <= k < n && tasks[k].dependsOn == [] {
      EdgesUpToOk(tasks, names, n, k);
      EdgeOwner(tasks, names, n, (Source, Id(k)));
    }
  }

  /** An edge touching "s" leaves it, towards a task without dependencies. */
  lemma SourceEdgeOwner(tasks: seq<TaskView>, names: seq<string>, e: Edge)
    requires EdgesUpTo(tasks, names, |tasks|).Ok? && e in EdgesUpTo(tasks, names, |tasks|).value
    requires e.0 == Source || e.1 == Source
    ensures exists k :: 0 <= k < |tasks| && tasks[k].dependsOn == []
  {
    EdgeOwner(tasks, names, |tasks|, e);
    var k :| 0 <= k < |tasks| && e.1 == Id(k) && TaskEdges(names, tasks[k], k).Ok? && e in TaskEdges(names, tasks[k], k).value;
    TaskEdgeShape(names, tasks[k], k, e);
  }

  /** Both ends of a successful build's edges are "s" or task nodes. */
  lemma EndpointIsTask(tasks: seq<TaskView>, names: seq<string>, e: Edge)
    requires names == TaskNames(tasks) && EdgesUpTo(tasks, names, |tasks|).Ok?
    requires e in EdgesUpTo(tasks, names, |tasks|).value
    ensures e.1 in Ids(|tasks|) && (e.0 == Source || e.0 in Ids(|tasks|))
  {
    EdgeOwner(tasks, names, |tasks|, e);
    var k :| 0 <= k < |tasks| && e.1 == Id(k) && TaskEdges(names, tasks[k], k).Ok? && e in TaskEdges(names, tasks[k], k).value;
    TaskEdgeShape(names, tasks[k], k, e);
    IdsMember(|tasks|, e.1);
    IdsMember(|tasks|, e.0);
  }

  /** The edges of a successful build: u -> i iff task i has no dependencies and u is "s",
      or u is the first task named after one of task i's dependencies. */
  lemma BuiltEdges(tasks: seq<TaskView>, i: nat, u: Node)
    requires Built(tasks).Ok? && i < |tasks|
    ensures (u, Id(i)) in Built(tasks).value.edges <==>
      if tasks[i].dependsOn == [] then u == Source
      else exists j :: (0 <= j < |tasks[i].dependsOn| && QualifiedName(tasks[i].dependsOn[j]) in TaskNames(tasks)
        && u == Id(FirstIndex(TaskNames(tasks), QualifiedName(tasks[i].dependsOn[j])).value))
  {
    var names := TaskNames(tasks);
    var n := |tasks|;
    var e := (u, Id(i));
    AddEdgesFromEdges(AddTaskNodes(Empty, tasks, n), EdgesUpTo(tasks, names, n).value);
    EdgeOwner(tasks, names, n, e);
    EdgesUpToOk(tasks, names, n, i);
    if e in TaskEdges(names, tasks[i], i).value {
      TaskEdgeShape(names, tasks[i], i, e);
    }
    if tasks[i].dependsOn != [] {
      if j :| (0 <= j < |tasks[i].dependsOn| && QualifiedName(tasks[i].dependsOn[j]) in names
        && u == Id(FirstIndex(names, QualifiedName(tasks[i].dependsOn[j])).value)) {
        TaskEdgeFrom(names, tasks[i], i, j);
      }
    }
  }

  /** `add_node(i)` for i < n on the empty graph lists 0 .. n-1 in order. */
  lemma {:induction false} IdsInOrder(tasks: seq<TaskView>, n: nat)
    requires n <= |tasks|
    ensures AddTaskNodes(Empty, tasks, n).nodes == Ids(n)
  {
    if n > 0 {
      var prev := AddTaskNodes(Empty, tasks, n - 1);
      IdsInOrder(tasks, n - 1);
      IdsMember(n - 1, Id(n - 1));
      assert Id(n - 1) !in prev.nodes;
      assert AddTaskNodes(Empty, tasks, n).nodes == prev.nodes + [Id(n - 1)];
    }
  }

  /** A node not yet in the graph goes last. */
  lemma AddNewNode(g: DiGraph, v: Node, name: string)
    requires v !in g.nodes
    ensures AddNode(g, v, name).nodes == g.nodes + [v]
  {
  }

  /** Adding a node that is already there under the same name changes nothing. */
  lemma AddNodeAgain(g: DiGraph, n: Node, name: string)
    requires n in g.nodes && n in g.names && g.names[n] == name
    ensures AddNode(g, n, name) == g
  {
  }

  /** Adding edges that are all already there changes nothing. */
  lemma {:induction false} AddEdgesAgain(g: DiGraph, es: seq<Edge>)
    requires WellFormed(g) && forall e :: e in es ==> e in g.edges
    ensures AddEdgesFrom(g, es) == g
    decreases |es|
  {
    if es != [] {
      AddEdgeFacts(g, es[0].0, es[0].1);
      assert AddEdge(g, es[0].0, es[0].1) == g;
      AddEdgesAgain(g, es[1..]);
    }
  }

  /** Re-adding the task nodes to a graph that already names them so changes nothing. */
  lemma {:induction false} AddTaskNodesAgain(g: DiGraph, tasks: seq<TaskView>, n: nat)
    requires n <= |tasks|
    requires forall i :: 0 <= i < n ==> Id(i) in g.nodes && Id(i) in g.names && g.names[Id(i)] == tasks[i].name
    ensures AddTaskNodes(g, tasks, n) == g
  {
    if n > 0 {
      AddTaskNodesAgain(g, tasks, n - 1);
      AddNodeAgain(g, Id(n - 1), tasks[n - 1].name);
    }
  }

  /** The loop of `build_dag`: each task's node is added in turn with its dependency edges
      collected, then all edges are added at once; an unknown dependency raises ValueError
      after the nodes up to its task were added, and no edge is added. */
  method BuildGraph(tasks: seq<TaskView>, g0: DiGraph) returns (g: DiGraph, err: Option<Exception>)
    ensures var built := EdgesUpTo(tasks, TaskNames(tasks), |tasks|);
      (err.None? <==> built.Ok?)
      && (built.Ok? ==> g == AddEdgesFrom(AddTaskNodes(g0, tasks, |tasks|), built.value))
      && (built.Raised? ==> err == Some(built.exc) && FailedAt(tasks, g0, g))
  {
    var edges;
    g, edges, err := CollectEdges(tasks, g0);
    if err.None? {
      g := AddEdgesFrom(g, edges);
    }
  }

  /** The node-adding loop of `build_dag`, up to the first unknown dependency. */
  method CollectEdges(tasks: seq<TaskView>, g0: DiGraph) returns (g: DiGraph, edges: seq<Edge>, err: Option<Exception>)
    ensures var built := EdgesUpTo(tasks, TaskNames(tasks), |tasks|);
      (err.None? ==> built == Ok(edges) && g == AddTaskNodes(g0, tasks, |tasks|))
      && (err.Some? ==> built == Raised(err.value) && FailedAt(tasks, g0, g))
  {
    edges := [];
    var names := TaskNames(tasks);
    g := g0;
    var index := 0;
    while index < |names|
      invariant 0 <= index <= |tasks|
      invariant EdgesUpTo(tasks, names, index) == Ok(edges)
      invariant g == AddTaskNodes(g0, tasks, index)
    {
      var task := tasks[index];
      g := AddNode(g, Id(index), task.name);
      if task.dependsOn != [] {
        var taskEdge := DepEdges(names, task.dependsOn, index);
        if taskEdge.Raised? {
          FirstFailure(tasks, index, g0, g);
          return g, edges, Some(taskEdge.exc);
        }
        EdgesUpToNext(tasks, names, index);
        edges := edges + taskEdge.value;
      } else {
        EdgesUpToNext(tasks, names, index);
        edges := edges + [(Source, Id(index))];
      }
      index := index + 1;
    }
    return g, edges, None;
  }

  class Dag {
    var tasks: seq<TaskView>
    var graph: DiGraph
    /** Filled by `build_level`; empty until then. */
    var nodesByLevel: LevelDict

    /** `Dag(tasks)`: an empty graph, then `build_dag`, whose ValueError escapes. */
    static method Create(tasks: seq<TaskView>) returns (r: Result<Dag>)
      ensures r.Raised? <==> Built(tasks).Raised?
      ensures r.Raised? ==> r.exc == ValueError
      ensures r.Ok? ==> (fresh(r.value) && r.value.tasks == tasks
        && r.value.graph == Built(tasks).value && r.value.nodesByLevel == [])
    {
      var d := new Dag.Init(tasks);
      var err := d.BuildDag();
      BuildSucceedsIff(tasks, |tasks|);
      if err.Some? {
        return Raised(err.value);
      }
      return Ok(d);
    }

    /** The attributes `__init__` sets before building. */
    constructor Init(tasks: seq<TaskView>)
      ensures this.tasks == tasks && graph == Empty && nodesByLevel == []
    {
      this.tasks := tasks;
      graph := Empty;
      nodesByLevel := [];
    }

    /** `build_dag` on this DAG's tasks and graph. */
    method BuildDag() returns (err: Option<Exception>)
      modifies this
      ensures tasks == old(tasks) && nodesByLevel == old(nodesByLevel)
      ensures var built := EdgesUpTo(tasks, TaskNames(tasks), |tasks|);
        (err.None? <==> built.Ok?)
        && (built.Ok? ==> graph == AddEdgesFrom(AddTaskNodes(old(graph), tasks, |tasks|), built.value))
        && (built.Raised? ==> err == Some(built.exc) && FailedAt(tasks, old(graph), graph))
    {
      var g;
      g, err := BuildGraph(tasks, graph);
      graph := g;
    }

    /** `build_level`: bfs_tree raises NetworkXError (leaving the levels as they were) when
        "s" is not in the graph; otherwise the levels are rebuilt from the distances. */
    method BuildLevel() returns (err: Option<Exception>)
      modifies this
      ensures tasks == old(tasks) && graph == old(graph)
      ensures var l := LevelsFor(graph, None);
        (l.Ok? ==> err == None && nodesByLevel == l.value)
        && (l.Raised? ==> err == Some(l.exc) && nodesByLevel == old(nodesByLevel))
    {
      var items := LevelItems(graph, None);
      if items.Raised? {
        return Some(items.exc);
      }
      nodesByLevel := GroupItems(items.value);
      return None;
    }

    /** The `levels` property: rebuild the levels, then return them. */
    method Levels() returns (r: Result<LevelDict>)
      modifies this
      ensures tasks == old(tasks) && graph == old(graph)
      ensures r == LevelsFor(graph, None)
      ensures r.Ok? ==> nodesByLevel == r.value
    {
      var err := BuildLevel();
      if err.Some? {
        return Raised(err.value);
      }
      return Ok(nodesByLevel);
    }
  }

  /** Some task k failed, all before it succeeded, and the graph holds the nodes added
      up to and including task k. */
  ghost predicate FailedAt(tasks: seq<TaskView>, before: DiGraph, after: DiGraph) {
    exists k :: 0 <= k < |tasks| && EdgesUpTo(tasks, TaskNames(tasks), k).Ok?
      && TaskEdges(TaskNames(tasks), tasks[k], k).Raised? && after == AddTaskNodes(before, tasks, k + 1)
  }

  /** When task `index` is the first to fail, the whole build fails with its error. */
  lemma FirstFailure(tasks: seq<TaskView>, index: nat, before: DiGraph, after: DiGraph)
    requires index < |tasks|
    requires EdgesUpTo(tasks, TaskNames(tasks), index).Ok? && TaskEdges(TaskNames(tasks), tasks[index], index).Raised?
    requires after == AddTaskNodes(before, tasks, index + 1)
    ensures EdgesUpTo(tasks, TaskNames(tasks), |tasks|) == Raised(TaskEdges(TaskNames(tasks), tasks[index], index).exc)
    ensures FailedAt(tasks, before, after)
  {
    StopsAt(tasks, TaskNames(tasks), index, |tasks|);
  }

  lemma {:induction false} StopsAt(tasks: seq<TaskView>, names: seq<string>, index: nat, n: nat)
    requires index < n <= |tasks|
    requires EdgesUpTo(tasks, names, index).Ok? && TaskEdges(names, tasks[index], index).Raised?
    ensures EdgesUpTo(tasks, names, n) == Raised(TaskEdges(names, tasks[index], index).exc)
  {
    if n > index + 1 {
      StopsAt(tasks, names, index, n - 1);
    }
  }

  /** Building again over a built graph, as the tests' fixture does, changes nothing. */
  lemma Rebuild(tasks: seq<TaskView>)
    requires Built(tasks).Ok?
    ensures var g := Built(tasks).value;
      var es := EdgesUpTo(tasks, TaskNames(tasks), |tasks|).value;
      AddEdgesFrom(AddTaskNodes(g, tasks, |tasks|), es) == g
  {
    var names := TaskNames(tasks);
    var n := |tasks|;
    var es := EdgesUpTo(tasks, names, n).value;
    var g0 := AddTaskNodes(Empty, tasks, n);
    var g := Built(tasks).value;
    assert WellFormed(Empty);
    AddTaskNodesWellFormed(Empty, tasks, n);
    AddTaskNodesNames(Empty, tasks, n);
    AddEdgesFromWellFormed(g0, es);
    AddEdgesFromEdges(g0, es);
    AddTaskNodesAgain(g, tasks, n);
    AddEdgesAgain(g, es);
  }

  /** The tests' two-task DAG: task one has no dependencies and task two depends on it.
      Nodes are [0, 1, "s"], edges [(0, 1), ("s", 0)], node 0 carries task one's name,
      and the levels are {0: ["s"], 1: [0], 2: [1]}. */
  lemma TwoTaskChain(one: Callable, second: string, s1: Status, s2: Status)
    requires second != QualifiedName(one)
    ensures var tasks := [TaskView(QualifiedName(one), [], s1), TaskView(second, [one], s2)];
      Built(tasks).Ok?
      && Built(tasks).value.nodes == [Id(0), Id(1), Source]
      && EdgeView(Built(tasks).value) == [(Id(0), Id(1)), (Source, Id(0))]
      && Id(0) in Built(tasks).value.names && Built(tasks).value.names[Id(0)] == QualifiedName(one)
      && LevelsFor(Built(tasks).value, None) == Ok([(0, [Source]), (1, [Id(0)]), (2, [Id(1)])])
  {
    var n1 := QualifiedName(one);
    var tasks := [TaskView(n1, [], s1), TaskView(second, [one], s2)];
    var names := TaskNames(tasks);
    assert names == [n1, second];
    assert names[0] == n1;
    assert FirstIndex(names, n1) == Some(0);
    SingleDep(names, one, 1);
    assert EdgesUpTo(tasks, names, 0) == Ok([]);
    assert tasks[0].dependsOn == [];
    assert TaskEdges(names, tasks[0], 0) == Ok([(Source, Id(0))]);
    assert [] + [(Source, Id(0))] == [(Source, Id(0))];
    var e1 := EdgesUpTo(tasks, names, 1);
    assert e1 == Ok([(Source, Id(0))]);
    var e2 := EdgesUpTo(tasks, names, 2);
    assert e2 == Ok(e1.value + [(Id(0), Id(1))]);
    IdsInOrder(tasks, 2);
    var g0 := AddTaskNodes(Empty, tasks, 2);
    AddTaskNodesNames(Empty, tasks, 2);
    assert g0.nodes == [Id(0), Id(1)];
    var g := Built(tasks).value;
    ChainBuilt(g0, g);
    ChainLevels(g);
  }

  /** A single dependency yields one edge from the first task of its name. */
  lemma SingleDep(names: seq<string>, one: Callable, index: nat)
    requires QualifiedName(one) in names
    ensures DepEdges(names, [one], index) == Ok([(Id(FirstIndex(names, QualifiedName(one)).value), Id(index))])
  {
    var deps := [one];
    assert deps[1..] == [] && deps[0] == one;
    assert DepEdges(names, deps[1..], index) == Ok([]);
    var k := FirstIndex(names, QualifiedName(one));
    assert k.Some?;
    var edge := (Id(k.value), Id(index));
    assert [edge] + [] == [edge];
    assert DepEdges(names, deps, index) == Ok([edge]);
  }

  /** Adding the edges ("s", 0) and (0, 1) to the nodes [0, 1]. */
  lemma ChainBuilt(g0: DiGraph, g: DiGraph)
    requires g0.nodes == [Id(0), Id(1)] && g0.edges == []
    requires g == AddEdgesFrom(g0, [(Source, Id(0)), (Id(0), Id(1))])
    ensures g.nodes == [Id(0), Id(1), Source] && g.edges == [(Source, Id(0)), (Id(0), Id(1))]
  {
    var es := [(Source, Id(0)), (Id(0), Id(1))];
    assert es[1..] == [(Id(0), Id(1))] && es[1..][1..] == [];
    var h1 := AddEdge(g0, Source, Id(0));
    FirstChainEdge(g0, h1);
    var h2 := AddEdge(h1, Id(0), Id(1));
    SecondChainEdge(h1, h2);
    assert AddEdgesFrom(h2, []) == h2;
    assert AddEdgesFrom(h1, es[1..]) == h2;
  }

  lemma FirstChainEdge(g0: DiGraph, h: DiGraph)
    requires g0.nodes == [Id(0), Id(1)] && g0.edges == [] && h == AddEdge(g0, Source, Id(0))
    ensures h.nodes == [Id(0), Id(1), Source] && h.edges == [(Source, Id(0))]
  {
    assert Source !in g0.nodes;
    var t := Touch(g0, Source);
    assert t.nodes == [Id(0), Id(1), Source];
    assert Touch(t, Id(0)) == t;
  }

  lemma SecondChainEdge(h1: DiGraph, h: DiGraph)
    requires h1.nodes == [Id(0), Id(1), Source] && h1.edges == [(Source, Id(0))] && h == AddEdge(h1, Id(0), Id(1))
    ensures h.nodes == h1.nodes && h.edges == [(Source, Id(0)), (Id(0), Id(1))]
  {
    assert Touch(h1, Id(0)) == h1 && Touch(h1, Id(1)) == h1;
  }

  /** Edge view and levels of the graph 0 -> 1 with "s" -> 0. */
  lemma ChainLevels(g: DiGraph)
    requires g.nodes == [Id(0), Id(1), Source] && g.edges == [(Source, Id(0)), (Id(0), Id(1))]
    ensures EdgeView(g) == [(Id(0), Id(1)), (Source, Id(0))]
    ensures LevelsFor(g, None) == Ok([(0, [Source]), (1, [Id(0)]), (2, [Id(1)])])
  {
    ChainEdgeView(g);
    ChainFrontiers(g);
    NoTargetLevels(g);
    ChainEnumerated(BfsFrontiers(g).value);
  }

  lemma ChainEnumerated(f: seq<seq<Node>>)
    requires f == [[Source], [Id(0)], [Id(1)]]
    ensures Enumerated(f) == [(0, [Source]), (1, [Id(0)]), (2, [Id(1)])]
  {
  }

  lemma ChainEdgeView(g: DiGraph)
    requires g.nodes == [Id(0), Id(1), Source] && g.edges == [(Source, Id(0)), (Id(0), Id(1))]
    ensures EdgeView(g) == [(Id(0), Id(1)), (Source, Id(0))]
  {
    ChainSuccessors(g);
    var us := g.nodes;
    assert us[1..] == [Id(1), Source] && us[1..][1..] == [Source] && [Source][1..] == [];
    var e2 := EdgesFrom(g, [Source]);
    assert e2 == [(Source, Id(0))] + EdgesFrom(g, []);
    var e1 := EdgesFrom(g, us[1..]);
    assert e1 == [] + e2;
    assert EdgesFrom(g, us) == [(Id(0), Id(1))] + e1;
  }

  /** The breadth-first frontiers of the graph 0 -> 1 with "s" -> 0. */
  lemma ChainFrontiers(g: DiGraph)
    requires g.nodes == [Id(0), Id(1), Source] && g.edges == [(Source, Id(0)), (Id(0), Id(1))]
    ensures BfsFrontiers(g) == Ok([[Source], [Id(0)], [Id(1)]])
  {
    ChainSuccessors(g);
    assert [Source][1..] == [] && [Id(0)][1..] == [] && [Id(1)][1..] == [];
    assert SuccessorList(g, [Source]) == [Id(0)];
    assert SuccessorList(g, [Id(0)]) == [Id(1)];
    assert SuccessorList(g, [Id(1)]) == [];
    var s0, s1, s2 := {Source}, {Source, Id(0)}, {Source, Id(0), Id(1)};
    assert Discover([], s1) == [] && Discover([], s2) == [];
    var n0 := Discover(SuccessorList(g, [Source]), s0);
    assert n0 == [Id(0)] && s0 + Elems(n0) == s1;
    var n1 := Discover(SuccessorList(g, [Id(0)]), s1);
    assert n1 == [Id(1)] && s1 + Elems(n1) == s2;
    var n2 := Discover(SuccessorList(g, [Id(1)]), s2);
    assert n2 == [] && s2 + Elems(n2) == s2;
    assert Frontiers(g, [], s2) == [];
    assert Frontiers(g, [Id(1)], s2) == [[Id(1)]] + Frontiers(g, n2, s2 + Elems(n2));
    assert Frontiers(g, [Id(0)], s1) == [[Id(0)]] + Frontiers(g, n1, s1 + Elems(n1));
    assert Frontiers(g, [Source], s0) == [[Source]] + Frontiers(g, n0, s0 + Elems(n0));
    assert Frontiers(g, [Source], s0) == [[Source], [Id(0)], [Id(1)]];
    assert Source in g.nodes;
  }

  lemma ChainSuccessors(g: DiGraph)
    requires g.edges == [(Source, Id(0)), (Id(0), Id(1))]
    ensures Successors(g, Source) == [Id(0)]
    ensures Successors(g, Id(0)) == [Id(1)]
    ensures Successors(g, Id(1)) == []
  {
    var tail := g.edges[1..];
    var nil := tail[1..];
    assert tail == [(Id(0), Id(1))];
    assert nil == [];
    assert Targets(nil, Source) == [];
    assert Targets(nil, Id(0)) == [];
    assert Targets(nil, Id(1)) == [];
    assert Targets(tail, Source) == [];
    assert Targets(tail, Id(0)) == [Id(1)];
    assert Targets(tail, Id(1)) == [];
  }
}
