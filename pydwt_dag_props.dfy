/** What `build_dag` of the pydwt generation guarantees, proved about the functions of
    `PydwtDag` that the methods of its `Dag` class are proved against. */
module PydwtDagProps {
  import opened Common
  import opened Graph
  import opened PydwtDag

  /** The state of a fresh `Dag()` as the loops of `build_dag` see it. */
  const Fresh: Progress := Progress([], map[], [], [])

  // ---------------------------------------------------------------- one dependency

  /** One dependency adds one edge, into node i, from the id `DepId` picks. */
  lemma DepStepEdge(p: Progress, dep: string, i: nat)
    ensures DepStep(p, dep, i).edges == p.edges + [(Id(DepId(p.nodeNames, dep)), Id(i))]
  {
  }

  /** The id a dependency gets is the first one carrying its name; it is a new id, logged
      as a new node named dep, exactly when no id carried the name; ids already in use keep
      their names. */
  lemma DepStepNames(p: Progress, dep: string, i: nat)
    ensures var r := DepStep(p, dep, i); var k := DepId(p.nodeNames, dep);
      && p.nodeNames <= r.nodeNames
      && k < |r.nodeNames| && r.nodeNames[k] == dep
      && (forall j :: 0 <= j < k ==> r.nodeNames[j] != dep)
      && (dep in p.nodeNames ==> r.nodeNames == p.nodeNames && r.added == p.added)
      && (dep !in p.nodeNames ==> k == |p.nodeNames| && r.nodeNames == p.nodeNames + [dep]
                                  && r.added == p.added + [(Id(k), dep)])
  {
    var k := DepId(p.nodeNames, dep);
    if dep in p.nodeNames {
      var f := FirstIndex(p.nodeNames, dep);
      assert f.Some? && f.value == k;
    }
  }

  /** The name the last `add_node` call on node n in a log gave it. */
  function LastName(log: seq<(Node, string)>, n: Node): Option<string>
  {
    if log == [] then None
    else if log[|log| - 1].0 == n then Some(log[|log| - 1].1)
    else LastName(log[..|log| - 1], n)
  }

  /** One more call on node m: it names m, and no other node changes. */
  lemma LastNameSnoc(log: seq<(Node, string)>, m: Node, name: string, n: Node)
    ensures LastName(log + [(m, name)], n) == if n == m then Some(name) else LastName(log, n)
  {
    assert (log + [(m, name)])[..|log|] == log;
  }

  /** The graph the logged calls build has every logged node, named as last logged. */
  lemma {:induction false} AddNodesNames(g: DiGraph, log: seq<(Node, string)>, n: Node)
    requires LastName(log, n).Some?
    ensures n in AddNodes(g, log).nodes && n in AddNodes(g, log).names
    ensures AddNodes(g, log).names[n] == LastName(log, n).value
  {
    var x := log[|log| - 1];
    if x.0 != n {
      AddNodesNames(g, log[..|log| - 1], n);
    }
  }

  /** Every id below `len(node_names)` was last logged with its entry in `node_names`,
      so the graph names it that way. */
  predicate Mirrored(p: Progress) {
    forall j :: 0 <= j < |p.nodeNames| ==> LastName(p.added, Id(j)) == Some(p.nodeNames[j])
  }

  /** A dependency keeps the logged node names in line with `node_names`. */
  lemma DepStepMirror(p: Progress, dep: string, i: nat)
    requires Mirrored(p)
    ensures Mirrored(DepStep(p, dep, i))
  {
    DepStepNames(p, dep, i);
    if dep !in p.nodeNames {
      var r := DepStep(p, dep, i);
      forall j | 0 <= j < |r.nodeNames|
        ensures LastName(r.added, Id(j)) == Some(r.nodeNames[j])
      {
        LastNameSnoc(p.added, Id(|p.nodeNames|), dep, Id(j));
      }
    }
  }

  // ---------------------------------------------------------------- the dependency loop

  /** Edges from index m on enter node i and leave a node other than "s". */
  predicate IntoFrom(es: seq<Edge>, m: nat, i: nat) {
    forall e :: m <= e < |es| ==> es[e].1 == Id(i) && es[e].0 != Source
  }

  /** One more such edge keeps the property. */
  lemma SnocInto(a: seq<Edge>, b: seq<Edge>, x: Edge, i: nat)
    requires a <= b && IntoFrom(b, |a|, i) && x.1 == Id(i) && x.0 != Source
    ensures a <= b + [x] && IntoFrom(b + [x], |a|, i)
  {
  }

  /** The first k dependencies of task i add one edge each, into node i, from a node
      other than "s". */
  lemma {:induction false} DepsUpToEdges(p: Progress, deps: seq<string>, i: nat, k: nat)
    requires k <= |deps|
    ensures |DepsUpTo(p, deps, i, k).edges| == |p.edges| + k
    ensures p.edges <= DepsUpTo(p, deps, i, k).edges
    ensures IntoFrom(DepsUpTo(p, deps, i, k).edges, |p.edges|, i)
  {
    if k > 0 {
      var q' := DepsUpTo(p, deps, i, k - 1);
      DepsUpToEdges(p, deps, i, k - 1);
      DepStepEdge(q', deps[k - 1], i);
      SnocInto(p.edges, q'.edges, (Id(DepId(q'.nodeNames, deps[k - 1])), Id(i)), i);
    }
  }

  /** The dependencies keep the names of the ids that existed. */
  lemma {:induction false} DepsUpToNames(p: Progress, deps: seq<string>, i: nat, k: nat)
    requires k <= |deps|
    ensures p.nodeNames <= DepsUpTo(p, deps, i, k).nodeNames
  {
    if k > 0 {
      var q' := DepsUpTo(p, deps, i, k - 1);
      DepsUpToNames(p, deps, i, k - 1);
      DepStepNames(q', deps[k - 1], i);
    }
  }

  /** The dependencies keep the logged node names in line with `node_names`. */
  lemma {:induction false} DepsUpToMirror(p: Progress, deps: seq<string>, i: nat, k: nat)
    requires k <= |deps| && Mirrored(p)
    ensures Mirrored(DepsUpTo(p, deps, i, k))
  {
    if k > 0 {
      DepsUpToMirror(p, deps, i, k - 1);
      DepStepMirror(DepsUpTo(p, deps, i, k - 1), deps[k - 1], i);
    }
  }

  // ---------------------------------------------------------------- one task

  /** Task i takes id i in `node_names`, whatever name id i had, and no other id changes. */
  lemma AfterTaskNames(p: Progress, tasks: seq<TaskView>, i: nat)
    requires i < |tasks|
    ensures var q := TasksUpTo(p, tasks, i); var r := AfterTask(p, tasks, i);
      && i < |r.nodeNames| && r.nodeNames[i] == tasks[i].name
      && forall j :: 0 <= j < |q.nodeNames| && j != i ==> r.nodeNames[j] == q.nodeNames[j]
  {
    var q := Register(TasksUpTo(p, tasks, i), tasks[i].name, i);
    if tasks[i].dependsOn != [] {
      DepsUpToNames(q, QualifiedNames(tasks[i].dependsOn), i, |tasks[i].dependsOn|);
    }
  }

  /** Task i enters `node_index` under its name with id i; nothing else does. */
  lemma AfterTaskIndex(p: Progress, tasks: seq<TaskView>, i: nat)
    requires i < |tasks|
    ensures AfterTask(p, tasks, i).nodeIndex == TasksUpTo(p, tasks, i).nodeIndex[tasks[i].name := i]
  {
  }

  /** A task keeps the logged node names in line with `node_names`. */
  lemma AfterTaskMirror(p: Progress, tasks: seq<TaskView>, i: nat)
    requires i < |tasks| && Mirrored(TasksUpTo(p, tasks, i))
    ensures Mirrored(AfterTask(p, tasks, i))
  {
    var p' := TasksUpTo(p, tasks, i);
    var q := Register(p', tasks[i].name, i);
    forall j | 0 <= j < |q.nodeNames|
      ensures LastName(q.added, Id(j)) == Some(q.nodeNames[j])
    {
      LastNameSnoc(p'.added, Id(i), tasks[i].name, Id(j));
    }
    assert Mirrored(q);
    if tasks[i].dependsOn != [] {
      DepsUpToMirror(q, QualifiedNames(tasks[i].dependsOn), i, |tasks[i].dependsOn|);
    }
  }

  /** A task without dependencies adds the one edge ("s", i); a task with dependencies adds
      one edge into i per dependency, none of them from "s". */
  lemma AfterTaskEdges(p: Progress, tasks: seq<TaskView>, i: nat)
    requires i < |tasks|
    ensures var q := TasksUpTo(p, tasks, i); var r := AfterTask(p, tasks, i);
      && q.edges <= r.edges
      && (forall e :: |q.edges| <= e < |r.edges| ==> r.edges[e].1 == Id(i))
      && (tasks[i].dependsOn == [] ==> r.edges == q.edges + [(Source, Id(i))])
      && (tasks[i].dependsOn != [] ==> |r.edges| == |q.edges| + |tasks[i].dependsOn| && IntoFrom(r.edges, |q.edges|, i))
  {
    var q := Register(TasksUpTo(p, tasks, i), tasks[i].name, i);
    if tasks[i].dependsOn != [] {
      DepsUpToEdges(q, QualifiedNames(tasks[i].dependsOn), i, |tasks[i].dependsOn|);
    }
  }

  // ---------------------------------------------------------------- the task loop

  /** After the first n tasks on a fresh `Dag`, id i names the i-th task for every i < n:
      dependency names that took an id a later task needs are overwritten. */
  lemma {:induction false} TasksNames(tasks: seq<TaskView>, n: nat)
    requires n <= |tasks|
    ensures forall i :: 0 <= i < n ==> TasksUpTo(Fresh, tasks, n).nodeNames[i] == tasks[i].name
  {
    if n > 0 {
      TasksNames(tasks, n - 1);
      AfterTaskNames(Fresh, tasks, n - 1);
    }
  }

  /** The logged node names follow `node_names` throughout. */
  lemma {:induction false} TasksMirror(tasks: seq<TaskView>, n: nat)
    requires n <= |tasks|
    ensures Mirrored(TasksUpTo(Fresh, tasks, n))
  {
    if n > 0 {
      TasksMirror(tasks, n - 1);
      AfterTaskMirror(Fresh, tasks, n - 1);
    }
  }

  /** `node_index` as the loop leaves it: every task name maps to the index of the last
      task carrying it. */
  function NameIndex(tasks: seq<TaskView>, n: nat): (m: map<string, nat>)
    requires n <= |tasks|
  {
    if n == 0 then map[] else NameIndex(tasks, n - 1)[tasks[n - 1].name := n - 1]
  }

  /** The keys of `NameIndex` are the task names, and each maps to the last task with it. */
  lemma {:induction false} NameIndexLast(tasks: seq<TaskView>, n: nat)
    requires n <= |tasks|
    ensures forall nm :: nm in NameIndex(tasks, n) <==> exists i :: 0 <= i < n && tasks[i].name == nm
    ensures forall nm :: nm in NameIndex(tasks, n) ==>
      NameIndex(tasks, n)[nm] < n && tasks[NameIndex(tasks, n)[nm]].name == nm
      && forall j :: NameIndex(tasks, n)[nm] < j < n ==> tasks[j].name != nm
  {
    if n > 0 {
      NameIndexLast(tasks, n - 1);
      var m := NameIndex(tasks, n);
      forall nm | nm in m
        ensures exists i :: 0 <= i < n && tasks[i].name == nm
      {
        if nm != tasks[n - 1].name {
          var i :| 0 <= i < n - 1 && tasks[i].name == nm;
          assert 0 <= i < n && tasks[i].name == nm;
        }
      }
    }
  }

  /** `node_index` after the first n tasks on a fresh `Dag` depends on the task names only. */
  lemma {:induction false} TasksIndex(tasks: seq<TaskView>, n: nat)
    requires n <= |tasks|
    ensures TasksUpTo(Fresh, tasks, n).nodeIndex == NameIndex(tasks, n)
  {
    if n > 0 {
      TasksIndex(tasks, n - 1);
      AfterTaskIndex(Fresh, tasks, n - 1);
    }
  }

  /** Edges from index `from` on enter task ids in lo .. hi-1. */
  predicate IntoRange(es: seq<Edge>, from: nat, lo: nat, hi: nat) {
    forall e :: from <= e < |es| ==> es[e].1.Id? && lo <= es[e].1.id < hi
  }

  /** Appending edges into task i extends the range of targets up to i. */
  lemma ExtendRange(es: seq<Edge>, rs: seq<Edge>, from: nat, lo: nat, i: nat)
    requires es <= rs && lo <= i && IntoRange(es, from, lo, i)
    requires forall e :: |es| <= e < |rs| ==> rs[e].1 == Id(i)
    ensures IntoRange(rs, from, lo, i + 1)
  {
  }

  /** The edge list only grows, and the edges tasks m .. n-1 add enter exactly those
      tasks' ids. */
  lemma {:induction false} TasksEdgesGrow(tasks: seq<TaskView>, m: nat, n: nat)
    requires m <= n <= |tasks|
    ensures TasksUpTo(Fresh, tasks, m).edges <= TasksUpTo(Fresh, tasks, n).edges
    ensures IntoRange(TasksUpTo(Fresh, tasks, n).edges, |TasksUpTo(Fresh, tasks, m).edges|, m, n)
  {
    if n > m {
      var q := TasksUpTo(Fresh, tasks, n - 1);
      TasksEdgesGrow(tasks, m, n - 1);
      AfterTaskEdges(Fresh, tasks, n - 1);
      ExtendRange(q.edges, TasksUpTo(Fresh, tasks, n).edges, |TasksUpTo(Fresh, tasks, m).edges|, m, n - 1);
    }
  }

  // ---------------------------------------------------------------- parents of a task

  /** Edges before index a that do not enter v do not count among v's tails. */
  lemma {:induction false} SourcesDrop(es: seq<Edge>, a: nat, v: Node)
    requires a <= |es| && forall e :: 0 <= e < a ==> es[e].1 != v
    ensures Sources(es, v) == Sources(es[a..], v)
  {
    if a > 0 {
      assert es[1..][a - 1..] == es[a..];
      SourcesDrop(es[1..], a - 1, v);
    }
  }

  /** Edges from index c on that do not enter v do not count among v's tails. */
  lemma {:induction false} SourcesTake(es: seq<Edge>, c: nat, v: Node)
    requires c <= |es| && forall e :: c <= e < |es| ==> es[e].1 != v
    ensures Sources(es, v) == Sources(es[..c], v)
  {
    if c == 0 {
      SourcesNone(es, v);
    } else {
      assert es[..c][1..] == es[1..][..c - 1];
      SourcesTake(es[1..], c - 1, v);
    }
  }

  /** The sources of the edges into node i are those of the slice a .. c-1 when no edge
      outside the slice enters i. */
  lemma SourcesWithin(es: seq<Edge>, a: nat, c: nat, i: nat)
    requires a <= c <= |es|
    requires forall e :: 0 <= e < a ==> es[e].1 != Id(i)
    requires forall e :: c <= e < |es| ==> es[e].1 != Id(i)
    ensures Sources(es, Id(i)) == Sources(es[a..c], Id(i))
  {
    SourcesDrop(es, a, Id(i));
    SourcesTake(es[a..], c - a, Id(i));
    assert es[a..][..c - a] == es[a..c];
  }

  /** Edge lists a <= q <= r where a enters ids below i, q adds the edges of task i and r
      then only enters ids above i: the edges into i are the ones q added. */
  lemma SlicedSources(a: seq<Edge>, q: seq<Edge>, r: seq<Edge>, i: nat, n: nat, k: nat)
    requires a <= q <= r && IntoRange(a, 0, 0, i) && IntoRange(r, |q|, i + 1, n)
    requires k == 0 ==> q == a + [(Source, Id(i))]
    requires k > 0 ==> |q| == |a| + k && IntoFrom(q, |a|, i)
    ensures var ps := Sources(r, Id(i));
      && (k == 0 ==> ps == [Source])
      && (k > 0 ==> |ps| == k && Source !in ps)
  {
    SourcesWithin(r, |a|, |q|, i);
    var c := r[|a|..|q|];
    assert c == q[|a|..];
    if k == 0 {
      assert c == [(Source, Id(i))];
    } else {
      SourcesAll(c, Id(i));
    }
  }

  /** In the edge list of the first n tasks, the edges into task i < n are the ones task i
      added itself: the single edge from "s" when it has no dependencies, otherwise one per
      dependency and none from "s". */
  lemma TaskSources(tasks: seq<TaskView>, n: nat, i: nat)
    requires i < n <= |tasks|
    ensures var ps := Sources(TasksUpTo(Fresh, tasks, n).edges, Id(i));
      && (tasks[i].dependsOn == [] ==> ps == [Source])
      && (tasks[i].dependsOn != [] ==> |ps| == |tasks[i].dependsOn| && Source !in ps)
  {
    TasksEdgesGrow(tasks, 0, i);
    TasksEdgesGrow(tasks, i + 1, n);
    AfterTaskEdges(Fresh, tasks, i);
    SlicedSources(TasksUpTo(Fresh, tasks, i).edges, TasksUpTo(Fresh, tasks, i + 1).edges,
      TasksUpTo(Fresh, tasks, n).edges, i, n, |tasks[i].dependsOn|);
  }

  // ---------------------------------------------------------------- build_dag on a new Dag

  /** `build_dag` on a new `Dag`: id i names task i for every task, and `node_index` maps
      each task name to the last task carrying it. */
  lemma BuildNames(tasks: seq<TaskView>)
    ensures var f := Build(Start, tasks);
      && |tasks| <= |f.nodeNames|
      && (forall i :: 0 <= i < |tasks| ==> f.nodeNames[i] == tasks[i].name)
      && f.nodeIndex == NameIndex(tasks, |tasks|)
  {
    assert Run(Start, tasks) == TasksUpTo(Fresh, tasks, |tasks|);
    TasksNames(tasks, |tasks|);
    TasksIndex(tasks, |tasks|);
  }

  /** Every id in `node_names` is a node of the graph, named as `node_names` says. */
  lemma BuildGraphNames(tasks: seq<TaskView>, j: nat)
    requires j < |Build(Start, tasks).nodeNames|
    ensures var f := Build(Start, tasks);
      Id(j) in f.graph.nodes && Id(j) in f.graph.names && f.graph.names[Id(j)] == f.nodeNames[j]
  {
    var q := TasksUpTo(Fresh, tasks, |tasks|);
    assert Run(Start, tasks) == q;
    TasksMirror(tasks, |tasks|);
    assert LastName(q.added, Id(j)) == Some(q.nodeNames[j]);
    AddNodesNames(Empty, q.added, Id(j));
  }

  /** In the built graph, "s" is a parent of task i exactly when the task has no
      dependencies, and a task with dependencies has at least one parent. */
  lemma BuildParents(tasks: seq<TaskView>, i: nat)
    requires i < |tasks|
    ensures var g := Build(Start, tasks).graph;
      && (Source in Predecessors(g, Id(i)) <==> tasks[i].dependsOn == [])
      && Predecessors(g, Id(i)) != []
  {
    var q := TasksUpTo(Fresh, tasks, |tasks|);
    assert Run(Start, tasks) == q;
    var h := AddNodes(Empty, q.added);
    AddEdgesFromEdges(h, q.edges);
    var g := AddEdgesFrom(h, q.edges);
    assert forall u :: u in Predecessors(g, Id(i)) <==> u in Sources(q.edges, Id(i));
    TaskSources(tasks, |tasks|, i);
    var ps := Sources(q.edges, Id(i));
    assert ps[0] in ps;
  }
}
