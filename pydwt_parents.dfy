/** What `check_parents_status` of the pydwt generation answers, proved about the
    functions of `PydwtDag` that `Dag.CheckParentsStatus` is proved against. */
module PydwtParents {
  import opened Common
  import opened Graph
  import opened PydwtDag
  import opened PydwtDagProps

  /** SUCCESS is the verdict exactly when every parent other than "s" looks up SUCCESS. */
  lemma {:induction false} VerdictSuccess(tasks: seq<TaskView>, ps: seq<Node>, shift: nat)
    ensures Verdict(tasks, ps, shift) == Ok(Success) <==>
      forall j :: 0 <= j < |ps| && ps[j] != Source ==> Lookup(tasks, ps[j].id, shift) == Ok(Success)
  {
    if ps != [] {
      VerdictSuccess(tasks, ps[1..], shift);
      assert forall j :: 1 <= j < |ps| ==> ps[1..][j - 1] == ps[j];
    }
  }

  /** Otherwise the verdict is what the first parent other than "s" that does not look up
      SUCCESS looks up, whatever the parents after it hold: an earlier PENDING hides a later
      ERROR, and an IndexError ends the loop as well. */
  lemma {:induction false} VerdictFirst(tasks: seq<TaskView>, ps: seq<Node>, shift: nat, j: nat)
    requires j < |ps| && ps[j] != Source && Lookup(tasks, ps[j].id, shift) != Ok(Success)
    requires forall k :: 0 <= k < j && ps[k] != Source ==> Lookup(tasks, ps[k].id, shift) == Ok(Success)
    ensures Verdict(tasks, ps, shift) == Lookup(tasks, ps[j].id, shift)
  {
    if j > 0 {
      assert forall k :: 0 <= k < j - 1 ==> ps[1..][k] == ps[k + 1];
      VerdictFirst(tasks, ps[1..], shift, j - 1);
    }
  }

  /** The parent id p of `check_parents_status` stands for `tasks[p - 1]`, and id 0 for the
      last task. */
  lemma LookupShifted(tasks: seq<TaskView>, p: nat)
    requires p <= |tasks|
    ensures 1 <= p ==> Lookup(tasks, p, 1) == Ok(tasks[p - 1].status)
    ensures p == 0 && tasks != [] ==> Lookup(tasks, p, 1) == Ok(tasks[|tasks| - 1].status)
    ensures p == 0 && tasks == [] ==> Lookup(tasks, p, 1) == Raised(IndexError)
  {
  }

  /** Ids past the end of the list raise IndexError. */
  lemma LookupOutOfRange(tasks: seq<TaskView>, p: nat, shift: nat)
    requires p >= |tasks| + shift
    ensures Lookup(tasks, p, shift) == Raised(IndexError)
  {
  }

  /** After `build_dag` on a new `Dag`, the check of a listed task never raises KeyError or
      NetworkXError: it runs the loop over the parents of the last task carrying the name. */
  lemma BuiltLookupFound(tasks: seq<TaskView>, i: nat, shift: nat)
    requires i < |tasks|
    ensures var f := Build(Start, tasks);
      && tasks[i].name in f.nodeIndex
      && ParentsStatus(tasks, f.graph, f.nodeIndex, tasks[i].name, shift)
         == Verdict(tasks, Predecessors(f.graph, Id(f.nodeIndex[tasks[i].name])), shift)
  {
    var f := Build(Start, tasks);
    BuildNames(tasks);
    NameIndexLast(tasks, |tasks|);
    var k := f.nodeIndex[tasks[i].name];
    assert k < |tasks| <= |f.nodeNames|;
    BuildGraphNames(tasks, k);
  }

  /** A name that no listed task carries raises KeyError, dependency names included: the
      ids created for dependencies never enter `node_index`. */
  lemma BuiltLookupMissing(tasks: seq<TaskView>, name: string, shift: nat)
    requires forall i :: 0 <= i < |tasks| ==> tasks[i].name != name
    ensures var f := Build(Start, tasks);
      ParentsStatus(tasks, f.graph, f.nodeIndex, name, shift) == Raised(KeyError)
  {
    BuildNames(tasks);
    NameIndexLast(tasks, |tasks|);
  }

  /** With distinct task names, `node_index` and `node_names` are inverse on the tasks. */
  lemma BuiltIndexDistinct(tasks: seq<TaskView>, i: nat)
    requires i < |tasks| && Distinct(TaskNames(tasks))
    ensures var f := Build(Start, tasks);
      tasks[i].name in f.nodeIndex && f.nodeIndex[tasks[i].name] == i && f.nodeNames[i] == tasks[i].name
  {
    BuildNames(tasks);
    NameIndexLast(tasks, |tasks|);
  }

  // ---------------------------------------------------------------- the parent lookup

  /** Two tasks where the second depends on the first, by the first's name, only. */
  predicate Chain(tasks: seq<TaskView>) {
    && |tasks| == 2 && tasks[0].name != tasks[1].name
    && tasks[0].dependsOn == [] && |tasks[1].dependsOn| == 1
    && QualifiedName(tasks[1].dependsOn[0]) == tasks[0].name
  }

  /** The edges `build_dag` collects for a chain: ("s", 0) and (0, 1). */
  lemma ChainEdges(tasks: seq<TaskView>)
    requires Chain(tasks)
    ensures TasksUpTo(Fresh, tasks, 2).edges == [(Source, Id(0)), (Id(0), Id(1))]
  {
    var p := TasksUpTo(Fresh, tasks, 1);
    AfterTaskEdges(Fresh, tasks, 0);
    assert p.edges == [(Source, Id(0))];
    AfterTaskNames(Fresh, tasks, 0);
    var r := Register(p, tasks[1].name, 1);
    assert r.nodeNames == [tasks[0].name, tasks[1].name];
    var deps := QualifiedNames(tasks[1].dependsOn);
    assert deps == [tasks[0].name];
    assert DepId(r.nodeNames, tasks[0].name) == 0;
    DepStepEdge(r, tasks[0].name, 1);
    assert DepsUpTo(r, deps, 1, 1) == DepStep(r, tasks[0].name, 1);
    assert TasksUpTo(Fresh, tasks, 2) == AfterTask(Fresh, tasks, 1) == DepsUpTo(r, deps, 1, 1);
  }

  /** The built chain holds exactly the edges ("s", 0) and (0, 1). */
  lemma ChainEdgeSet(tasks: seq<TaskView>)
    requires Chain(tasks)
    ensures Elems(Build(Start, tasks).graph.edges) == {(Source, Id(0)), (Id(0), Id(1))}
  {
    BuiltEdges(tasks);
    assert Run(Start, tasks) == TasksUpTo(Fresh, tasks, 2);
    ChainEdges(tasks);
    EdgePairElems((Source, Id(0)), (Id(0), Id(1)));
  }

  /** `build_dag` from empty fields adds exactly the edges its loops collect. */
  lemma BuiltEdges(tasks: seq<TaskView>)
    ensures Elems(Build(Start, tasks).graph.edges) == Elems(Run(Start, tasks).edges)
  {
    var q := Run(Start, tasks);
    AddEdgesFromEdges(AddNodes(Empty, q.added), q.edges);
  }

  lemma EdgePairElems(a: Edge, b: Edge)
    ensures Elems([a, b]) == {a, b}
  {
  }

  /** The only parent of the second task in the built chain is node 0, the first task. */
  lemma ChainParents(tasks: seq<TaskView>)
    requires Chain(tasks)
    ensures var f := Build(Start, tasks);
      && tasks[1].name in f.nodeIndex && f.nodeIndex[tasks[1].name] == 1
      && (forall u :: u in Predecessors(f.graph, Id(1)) <==> u == Id(0))
      && Predecessors(f.graph, Id(1)) != []
  {
    assert Distinct(TaskNames(tasks));
    BuiltIndexDistinct(tasks, 1);
    ChainEdgeSet(tasks);
    ChainGraphParents(Build(Start, tasks).graph);
  }

  /** In a graph whose edges are ("s", 0) and (0, 1), node 1 has the one parent 0. */
  lemma ChainGraphParents(g: DiGraph)
    requires Elems(g.edges) == {(Source, Id(0)), (Id(0), Id(1))}
    ensures forall u :: u in Predecessors(g, Id(1)) <==> u == Id(0)
    ensures Predecessors(g, Id(1)) != []
  {
    forall u ensures u in Predecessors(g, Id(1)) <==> u == Id(0) {
      assert (u, Id(1)) in g.edges <==> (u, Id(1)) in Elems(g.edges);
    }
    assert Id(0) in Predecessors(g, Id(1));
  }

  /** As written, checking the second task of a chain consults `tasks[0 - 1]`, which is
      that task itself: a PENDING task whose one parent has succeeded is reported PENDING. */
  lemma ChainCheckAsWritten(tasks: seq<TaskView>)
    requires Chain(tasks) && tasks[0].status == Success && tasks[1].status == Pending
    ensures var f := Build(Start, tasks);
      ParentsStatus(tasks, f.graph, f.nodeIndex, tasks[1].name, 1) == Ok(Pending)
  {
    var f := Build(Start, tasks);
    ChainParents(tasks);
    BuiltLookupFound(tasks, 1, 1);
    var ps := Predecessors(f.graph, Id(1));
    assert ps[0] in ps;
    VerdictFirst(tasks, ps, 1, 0);
  }

  /** Looking up `tasks[p]` instead, the check of the second task reports the status of
      the first. */
  lemma ChainCheckCorrected(tasks: seq<TaskView>)
    requires Chain(tasks)
    ensures var f := Build(Start, tasks);
      ParentsStatus(tasks, f.graph, f.nodeIndex, tasks[1].name, 0) == Ok(tasks[0].status)
  {
    var f := Build(Start, tasks);
    ChainParents(tasks);
    BuiltLookupFound(tasks, 1, 0);
    var ps := Predecessors(f.graph, Id(1));
    assert ps[0] in ps;
    if tasks[0].status == Success {
      forall j | 0 <= j < |ps| ensures ps[j] == Id(0) {
        assert ps[j] in ps;
      }
      VerdictSuccess(tasks, ps, 0);
    } else {
      VerdictFirst(tasks, ps, 0, 0);
    }
  }

  /** With the corrected lookup, the status consulted for a parent id p that is a task id
      is the status of the task that node p is named after. */
  lemma CorrectedLookup(tasks: seq<TaskView>, p: nat)
    requires p < |tasks|
    ensures var f := Build(Start, tasks);
      && Lookup(tasks, p, 0) == Ok(tasks[p].status)
      && Id(p) in f.graph.names && f.graph.names[Id(p)] == tasks[p].name
  {
    BuildNames(tasks);
    BuildGraphNames(tasks, p);
  }
}
