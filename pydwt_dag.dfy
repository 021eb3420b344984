/** The DAG of the pydwt generation. `build_dag` gives the i-th task node i and records it
    in `node_names` (id to name) and `node_index` (name to id); a dependency reuses the
    first id already carrying its qualified name, or else takes the next free id
    `len(node_names)`, which goes into `node_names` and the graph but never into
    `node_index`. `check_parents_status` reads the statuses of a node's predecessors. */
module PydwtDag {
  import opened Common
  import opened Graph
  import opened Levels

  /** What one run of `build_dag`'s loops has done so far: `node_names` (its keys are
      always 0 .. n-1, inserted in that order, so the dict is the list of its values),
      `node_index`, the `add_node(id, name=...)` calls made on the graph, in order, and the
      local edge list. */
  datatype Progress = Progress(nodeNames: seq<string>, nodeIndex: map<string, nat>, added: seq<(Node, string)>, edges: seq<Edge>)

  /** The fields of a `Dag` besides `tasks`. */
  datatype Fields = Fields(nodeNames: seq<string>, nodeIndex: map<string, nat>, graph: DiGraph)

  /** The fields of a new `Dag()`. */
  const Start: Fields := Fields([], map[], Empty)

  /** The graph after the `add_node` calls of a log, in order. */
  function AddNodes(g: DiGraph, log: seq<(Node, string)>): (r: DiGraph)
    ensures r.edges == g.edges
  {
    if log == [] then g else AddNode(AddNodes(g, log[..|log| - 1]), log[|log| - 1].0, log[|log| - 1].1)
  }

  /** One more `add_node` call. */
  lemma AddNodesSnoc(g: DiGraph, log: seq<(Node, string)>, x: (Node, string))
    ensures AddNodes(g, log + [x]) == AddNode(AddNodes(g, log), x.0, x.1)
  {
    assert (log + [x])[..|log|] == log;
  }

  /** The id a dependency named dep gets: the first id whose name is dep, else the next
      free id. */
  function DepId(nodeNames: seq<string>, dep: string): (k: nat)
    ensures k <= |nodeNames|
    ensures k < |nodeNames| <==> dep in nodeNames
  {
    match FirstIndex(nodeNames, dep)
    case Some(k) => k
    case None => |nodeNames|
  }

  /** One dependency of task i: a name not seen yet gets the next id and a node of its
      own; then the edge (dep, i) is recorded. */
  function DepStep(p: Progress, dep: string, i: nat): (r: Progress)
    ensures |p.nodeNames| <= |r.nodeNames|
    ensures r.nodeIndex == p.nodeIndex
  {
    var k := DepId(p.nodeNames, dep);
    if dep in p.nodeNames then p.(edges := p.edges + [(Id(k), Id(i))])
    else Progress(p.nodeNames + [dep], p.nodeIndex, p.added + [(Id(k), dep)], p.edges + [(Id(k), Id(i))])
  }

  /** The first k dependencies of task i, in declaration order. */
  function DepsUpTo(p: Progress, deps: seq<string>, i: nat, k: nat): (r: Progress)
    requires k <= |deps|
    ensures |p.nodeNames| <= |r.nodeNames|
    ensures r.nodeIndex == p.nodeIndex
  {
    if k == 0 then p else DepStep(DepsUpTo(p, deps, i, k - 1), deps[k - 1], i)
  }

  /** Task i enters `node_names` (overwriting whatever id i named), `node_index` and the
      graph under its name. */
  function Register(p: Progress, name: string, i: nat): (r: Progress)
    requires i <= |p.nodeNames|
    ensures |r.nodeNames| == if i < |p.nodeNames| then |p.nodeNames| else i + 1
  {
    Progress(if i < |p.nodeNames| then p.nodeNames[i := name] else p.nodeNames + [name],
      p.nodeIndex[name := i], p.added + [(Id(i), name)], p.edges)
  }

  /** One iteration of the task loop: register task i, then record its edges. */
  function TaskStep(p: Progress, t: TaskView, i: nat): (r: Progress)
    requires i <= |p.nodeNames|
    ensures |r.nodeNames| >= i + 1 && |r.nodeNames| >= |p.nodeNames|
  {
    var q := Register(p, t.name, i);
    if t.dependsOn == [] then q.(edges := q.edges + [(Source, Id(i))])
    else DepsUpTo(q, QualifiedNames(t.dependsOn), i, |t.dependsOn|)
  }

  /** The first n iterations of the task loop. */
  function TasksUpTo(p: Progress, tasks: seq<TaskView>, n: nat): (r: Progress)
    requires n <= |tasks|
    ensures |r.nodeNames| >= n && |r.nodeNames| >= |p.nodeNames|
    decreases n, 1
  {
    if n == 0 then p else AfterTask(p, tasks, n - 1)
  }

  /** The state after iteration i of the task loop. */
  function AfterTask(p: Progress, tasks: seq<TaskView>, i: nat): (r: Progress)
    requires i < |tasks|
    ensures |r.nodeNames| >= i + 1 && |r.nodeNames| >= |p.nodeNames|
    decreases i + 1, 0
  {
    TaskStep(TasksUpTo(p, tasks, i), tasks[i], i)
  }

  /** The loops of `build_dag` run from fields f, with nothing logged yet. */
  function Run(f: Fields, tasks: seq<TaskView>): Progress
  {
    TasksUpTo(Progress(f.nodeNames, f.nodeIndex, [], []), tasks, |tasks|)
  }

  /** The fields after `build_dag` on tasks: the loops, then `add_edges_from(edges)`. */
  function Build(f: Fields, tasks: seq<TaskView>): Fields
  {
    var q := Run(f, tasks);
    Fields(q.nodeNames, q.nodeIndex, AddEdgesFrom(AddNodes(f.graph, q.added), q.edges))
  }

  /** The loops of `build_dag`, from the field values it starts with. */
  method BuildLoop(names0: seq<string>, index0: map<string, nat>, graph0: DiGraph, tasks: seq<TaskView>)
    returns (nodeNames: seq<string>, nodeIndex: map<string, nat>, graph: DiGraph)
    ensures Fields(nodeNames, nodeIndex, graph) == Build(Fields(names0, index0, graph0), tasks)
  {
    var p, g := TasksLoop(Progress(names0, index0, [], []), graph0, tasks);
    nodeNames, nodeIndex := p.nodeNames, p.nodeIndex;
    graph := AddEdgesFrom(g, p.edges);
  }

  /** The outer loop of `build_dag`, over the tasks in list order; the graph receives the
      `add_node` calls the log records. */
  method TasksLoop(p0: Progress, g0: DiGraph, tasks: seq<TaskView>) returns (p: Progress, g: DiGraph)
    requires p0.added == []
    ensures p == TasksUpTo(p0, tasks, |tasks|) && g == AddNodes(g0, p.added)
  {
    p, g := p0, g0;
    for i := 0 to |tasks|
      invariant p == TasksUpTo(p0, tasks, i) && g == AddNodes(g0, p.added)
    {
      p, g := TaskLoop(p, g, g0, tasks[i], i);
    }
  }

  /** One pass of the outer loop of `build_dag`, on task t with id i. */
  method TaskLoop(p: Progress, g: DiGraph, ghost g0: DiGraph, t: TaskView, i: nat) returns (r: Progress, h: DiGraph)
    requires i <= |p.nodeNames| && g == AddNodes(g0, p.added)
    ensures r == TaskStep(p, t, i) && h == AddNodes(g0, r.added)
  {
    var nodeNames := if i < |p.nodeNames| then p.nodeNames[i := t.name] else p.nodeNames + [t.name];
    var q := Progress(nodeNames, p.nodeIndex[t.name := i], p.added + [(Id(i), t.name)], p.edges);
    AddNodesSnoc(g0, p.added, (Id(i), t.name));
    h := AddNode(g, Id(i), t.name);
    if t.dependsOn != [] {
      r, h := DepsLoop(q, h, g0, QualifiedNames(t.dependsOn), i);
    } else {
      r := q.(edges := q.edges + [(Source, Id(i))]);
    }
  }

  /** The inner loop of `build_dag` over the dependencies of task i. */
  method DepsLoop(p: Progress, g: DiGraph, ghost g0: DiGraph, deps: seq<string>, i: nat) returns (r: Progress, h: DiGraph)
    requires g == AddNodes(g0, p.added)
    ensures r == DepsUpTo(p, deps, i, |deps|) && h == AddNodes(g0, r.added)
  {
    r, h := p, g;
    for k := 0 to |deps|
      invariant r == DepsUpTo(p, deps, i, k) && h == AddNodes(g0, r.added)
    {
      var depName := deps[k];
      var depIndex: nat;
      if depName in r.nodeNames {
        depIndex := FirstIndex(r.nodeNames, depName).value;
      } else {
        depIndex := |r.nodeNames|;
        AddNodesSnoc(g0, r.added, (Id(depIndex), depName));
        r := r.(nodeNames := r.nodeNames + [depName], added := r.added + [(Id(depIndex), depName)]);
        h := AddNode(h, Id(depIndex), depName);
      }
      r := r.(edges := r.edges + [(Id(depIndex), Id(i))]);
    }
  }

  /** `node_index.get(target, None)`. */
  function TargetId(nodeIndex: map<string, nat>, target: Option<string>): (r: Option<nat>)
    ensures r.Some? <==> target.Some? && target.value in nodeIndex
  {
    if target.Some? && target.value in nodeIndex then Some(nodeIndex[target.value]) else None
  }

  /** The status `self.tasks[p - shift]` has for a parent node p; `check_parents_status`
      uses shift 1. A negative position counts from the end of the list. */
  function Lookup(tasks: seq<TaskView>, p: nat, shift: nat): (r: Result<Status>)
    ensures r.Raised? ==> r.exc == IndexError
  {
    match PyIndex(tasks, p - shift)
    case Ok(t) => Ok(t.status)
    case Raised(e) => Raised(e)
  }

  /** The loop of `check_parents_status` over the predecessors `ps`: "s" is skipped, a
      parent in ERROR or PENDING answers at once, and SUCCESS is the answer when none
      does. */
  function Verdict(tasks: seq<TaskView>, ps: seq<Node>, shift: nat): Result<Status>
  {
    if ps == [] then Ok(Success)
    else if ps[0] == Source then Verdict(tasks, ps[1..], shift)
    else
      var l := Lookup(tasks, ps[0].id, shift);
      if l == Ok(Success) then Verdict(tasks, ps[1..], shift) else l
  }

  /** `check_parents_status(task)` against the fields it reads: KeyError for a name not in
      `node_index`, NetworkXError for a node not in the graph. */
  function ParentsStatus(tasks: seq<TaskView>, graph: DiGraph, nodeIndex: map<string, nat>, name: string, shift: nat): Result<Status>
  {
    if name !in nodeIndex then Raised(KeyError)
    else if Id(nodeIndex[name]) !in graph.nodes then Raised(NetworkXError)
    else Verdict(tasks, Predecessors(graph, Id(nodeIndex[name])), shift)
  }

  class Dag {
    var tasks: seq<TaskView>
    var graph: DiGraph
    var nodeIndex: map<string, nat>
    var nodeNames: seq<string>

    /** `Dag()`: no tasks, an empty graph and empty maps. */
    constructor ()
      ensures tasks == [] && graph == Empty && nodeIndex == map[] && nodeNames == []
    {
      tasks := [];
      graph := Empty;
      nodeIndex := map[];
      nodeNames := [];
    }

    /** The `tasks` property setter. */
    method SetTasks(value: seq<TaskView>)
      modifies this
      ensures tasks == value
      ensures graph == old(graph) && nodeIndex == old(nodeIndex) && nodeNames == old(nodeNames)
    {
      tasks := value;
    }

    /** `build_dag`: the maps and the graph grow from what they hold. */
    method BuildDag()
      modifies this
      ensures tasks == old(tasks)
      ensures Fields(nodeNames, nodeIndex, graph) == Build(Fields(old(nodeNames), old(nodeIndex), old(graph)), tasks)
    {
      nodeNames, nodeIndex, graph := BuildLoop(nodeNames, nodeIndex, graph, tasks);
    }

    /** `build_level(target)`: the levels of the graph towards the target's id, or by
        distance when the target is absent or not in `node_index`. */
    method BuildLevel(target: Option<string>) returns (r: Result<LevelDict>)
      ensures r == LevelsFor(graph, TargetId(nodeIndex, target))
    {
      var nodeId := TargetId(nodeIndex, target);
      var items := LevelItems(graph, nodeId);
      if items.Raised? {
        return Raised(items.exc);
      }
      var nodesByLevel := GroupItems(items.value);
      return Ok(nodesByLevel);
    }

    /** `check_parents_status(task)`. */
    method CheckParentsStatus(task: TaskView) returns (r: Result<Status>)
      ensures r == ParentsStatus(tasks, graph, nodeIndex, task.name, 1)
    {
      if task.name !in nodeIndex {
        return Raised(KeyError);
      }
      var node := Id(nodeIndex[task.name]);
      if node !in graph.nodes {
        return Raised(NetworkXError);
      }
      var parents := Predecessors(graph, node);
      var j := 0;
      while j < |parents|
        invariant 0 <= j <= |parents|
        invariant Verdict(tasks, parents[j..], 1) == Verdict(tasks, parents, 1)
      {
        assert parents[j..][1..] == parents[j + 1..];
        var parentIndex := parents[j];
        if parentIndex != Source {
          if !(-|tasks| <= parentIndex.id - 1 < |tasks|) {
            return Raised(IndexError);
          }
          var parent := if parentIndex.id >= 1 then tasks[parentIndex.id - 1] else tasks[|tasks| + parentIndex.id - 1];
          if parent.status == Error {
            return Ok(Error);
          } else if parent.status == Pending {
            return Ok(Pending);
          }
        }
        j := j + 1;
      }
      return Ok(Success);
    }
  }
}
