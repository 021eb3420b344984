/** The level loop of `Workflow.run`, the same in both generations: for every item of
    the level dict, in its order, level 0 (the source) is skipped and every other level
    hands an executor the tasks whose position in the workflow's list is among the
    level's nodes, with one worker per task. The executor is abstracted to the run it
    is given, assuming that no task's `run` raises and that every task is a plain `Task`:
    then it runs every task of its batch once and returns when all are done. A raising
    `run` kills its worker before `task_done`, so the executor's `join` never returns. */
module LevelRuns {
  import opened Common
  import opened Graph
  import opened Levels

  /** `[task for i, task in enumerate(tasks) if i in task_indexes]`. */
  function Batch<T>(tasks: seq<T>, ids: seq<Node>): (r: seq<T>)
    ensures |r| <= |tasks|
  {
    if tasks == [] then []
    else
      var n := |tasks| - 1;
      Batch(tasks[..n], ids) + (if Id(n) in ids then [tasks[n]] else [])
  }

  /** The positions `enumerate` selects: those i below n with node i in the list, in
      increasing order. */
  function Selected(n: nat, ids: seq<Node>): (r: seq<nat>)
  {
    if n == 0 then [] else Selected(n - 1, ids) + (if Id(n - 1) in ids then [n - 1] else [])
  }

  /** The selected positions are exactly the positions below n whose node is listed, each
      once and in increasing order; "s" and ids at or past n select nothing. */
  lemma {:induction false} SelectedSpec(n: nat, ids: seq<Node>)
    ensures forall k :: 0 <= k < |Selected(n, ids)| ==> Selected(n, ids)[k] < n && Id(Selected(n, ids)[k]) in ids
    ensures forall k, l :: 0 <= k < l < |Selected(n, ids)| ==> Selected(n, ids)[k] < Selected(n, ids)[l]
    ensures forall i :: 0 <= i < n && Id(i) in ids ==> i in Selected(n, ids)
  {
    if n > 0 {
      SelectedSpec(n - 1, ids);
    }
  }

  /** The batch is the tasks at the selected positions, in the workflow's order. */
  lemma {:induction false} BatchIsSelected<T>(tasks: seq<T>, ids: seq<Node>)
    ensures |Batch(tasks, ids)| == |Selected(|tasks|, ids)|
    ensures forall k :: 0 <= k < |Batch(tasks, ids)| ==>
      Selected(|tasks|, ids)[k] < |tasks| && Batch(tasks, ids)[k] == tasks[Selected(|tasks|, ids)[k]]
  {
    SelectedSpec(|tasks|, ids);
    if tasks != [] {
      var n := |tasks| - 1;
      BatchIsSelected(tasks[..n], ids);
      SelectedSpec(n, ids);
    }
  }

  /** `[task for i, task in enumerate(tasks) if i in task_indexes]`, as the loop the
      comprehension is. */
  method SelectBatch<T>(tasks: seq<T>, ids: seq<Node>) returns (batch: seq<T>)
    ensures batch == Batch(tasks, ids)
  {
    batch := [];
    var i := 0;
    while i < |tasks|
      invariant 0 <= i <= |tasks|
      invariant batch == Batch(tasks[..i], ids)
    {
      assert tasks[..i + 1][..i] == tasks[..i];
      if Id(i) in ids {
        batch := batch + [tasks[i]];
      }
      i := i + 1;
    }
    assert tasks[..i] == tasks;
  }

  /** One executor run: the level, its batch and the worker count. */
  datatype LevelRun<T> = LevelRun(level: nat, batch: seq<T>, workers: nat)

  /** The executor runs of the loop over the first k items of the level dict. */
  function Plan<T>(levels: LevelDict, tasks: seq<T>, k: nat): (r: seq<LevelRun<T>>)
    requires k <= |levels|
  {
    if k == 0 then []
    else
      var (level, ids) := levels[k - 1];
      Plan(levels, tasks, k - 1)
      + (if level != 0 then [LevelRun(level, Batch(tasks, ids), |Batch(tasks, ids)|)] else [])
  }

  /** The items of the level dict the loop hands to an executor: all but level 0. */
  function RunLevels(levels: LevelDict, k: nat): (r: seq<nat>)
    requires k <= |levels|
  {
    if k == 0 then [] else RunLevels(levels, k - 1) + (if levels[k - 1].0 != 0 then [k - 1] else [])
  }

  /** The loop makes one executor run per item of the level dict except level 0, in the
      dict's order; each run has the batch of its level and as many workers as tasks. */
  lemma {:induction false} PlanSpec<T>(levels: LevelDict, tasks: seq<T>, k: nat)
    requires k <= |levels|
    ensures |Plan(levels, tasks, k)| == |RunLevels(levels, k)|
    ensures forall m :: 0 <= m < |Plan(levels, tasks, k)| ==>
      var j := RunLevels(levels, k)[m];
      && j < k && levels[j].0 != 0
      && Plan(levels, tasks, k)[m] == LevelRun(levels[j].0, Batch(tasks, levels[j].1), |Batch(tasks, levels[j].1)|)
    ensures forall m, n :: 0 <= m < n < |RunLevels(levels, k)| ==> RunLevels(levels, k)[m] < RunLevels(levels, k)[n]
    ensures forall j :: 0 <= j < k && levels[j].0 != 0 ==> j in RunLevels(levels, k)
  {
    if k > 0 {
      PlanSpec(levels, tasks, k - 1);
    }
  }

  /** Every executor run is for a level other than 0 and has one worker per task. */
  lemma {:induction false} PlanSkipsSource<T>(levels: LevelDict, tasks: seq<T>, k: nat)
    requires k <= |levels|
    ensures forall r :: r in Plan(levels, tasks, k) ==> r.level != 0 && r.workers == |r.batch|
  {
    if k > 0 {
      PlanSkipsSource(levels, tasks, k - 1);
    }
  }

  /** The task runs the executors make, in level order: the batches one after the other. */
  function Executed<T>(plan: seq<LevelRun<T>>): seq<T> {
    if plan == [] then [] else Executed(plan[..|plan| - 1]) + plan[|plan| - 1].batch
  }

  /** How many of the first k items of the level dict, level 0 aside, list node i. */
  function Listings(levels: LevelDict, i: nat, k: nat): nat
    requires k <= |levels|
  {
    if k == 0 then 0
    else Listings(levels, i, k - 1) + (if levels[k - 1].0 != 0 && Id(i) in levels[k - 1].1 then 1 else 0)
  }

  /** The batch holds task i exactly once when node i is listed and i is a position of the
      list, and not at all otherwise, provided the list holds no object twice. */
  lemma {:induction false} BatchCount<T>(tasks: seq<T>, ids: seq<Node>, i: nat)
    requires Distinct(tasks) && i < |tasks|
    ensures multiset(Batch(tasks, ids))[tasks[i]] == if Id(i) in ids then 1 else 0
  {
    var n := |tasks| - 1;
    if i < n {
      assert tasks[..n][i] == tasks[i];
      BatchCount(tasks[..n], ids, i);
    } else {
      BatchAbsent(tasks[..n], ids, tasks[n]);
    }
  }

  /** An object not in the list is in no batch. */
  lemma {:induction false} BatchAbsent<T>(tasks: seq<T>, ids: seq<Node>, x: T)
    requires x !in tasks
    ensures x !in Batch(tasks, ids)
  {
    if tasks != [] {
      BatchAbsent(tasks[..|tasks| - 1], ids, x);
    }
  }

  /** How many times x is in the batches of a plan, summed over its runs. */
  ghost function Hits<T>(plan: seq<LevelRun<T>>, x: T): nat {
    if |plan| == 0 then 0 else Hits(plan[..|plan| - 1], x) + multiset(plan[|plan| - 1].batch)[x]
  }

  /** The executors of a plan run x as many times as its batches hold it. */
  lemma {:induction false} ExecutedHits<T>(plan: seq<LevelRun<T>>, x: T)
    ensures multiset(Executed(plan))[x] == Hits(plan, x)
  {
    if |plan| > 0 {
      var n := |plan| - 1;
      ExecutedHits(plan[..n], x);
      var e, b := Executed(plan[..n]), plan[n].batch;
      assert multiset(e + b) == multiset(e) + multiset(b);
    }
  }

  /** A run appended to a plan adds the times its batch holds x. */
  lemma HitsSnoc<T>(plan: seq<LevelRun<T>>, run: LevelRun<T>, x: T)
    ensures Hits(plan + [run], x) == Hits(plan, x) + multiset(run.batch)[x]
  {
    assert (plan + [run])[..|plan|] == plan;
  }

  /** Task i of a list without repeats is in the batches of the first k items of the level
      dict once per level other than 0 that lists its node. */
  lemma {:induction false} PlanHits<T>(levels: LevelDict, tasks: seq<T>, i: nat, k: nat)
    requires Distinct(tasks) && i < |tasks| && k <= |levels|
    ensures Hits(Plan(levels, tasks, k), tasks[i]) == Listings(levels, i, k)
  {
    if k > 0 {
      PlanHits(levels, tasks, i, k - 1);
      var p := Plan(levels, tasks, k - 1);
      if levels[k - 1].0 != 0 {
        var b := Batch(tasks, levels[k - 1].1);
        var run := LevelRun(levels[k - 1].0, b, |b|);
        assert Plan(levels, tasks, k) == p + [run];
        HitsSnoc(p, run, tasks[i]);
        BatchCount(tasks, levels[k - 1].1, i);
      } else {
        assert Plan(levels, tasks, k) == p;
      }
    }
  }

  /** Over a whole run, task i of a list without repeats runs once per level other than 0
      that lists its node: once for every task when each node is listed on one level. */
  lemma ExecutedCount<T>(levels: LevelDict, tasks: seq<T>, i: nat, k: nat)
    requires Distinct(tasks) && i < |tasks| && k <= |levels|
    ensures multiset(Executed(Plan(levels, tasks, k)))[tasks[i]] == Listings(levels, i, k)
  {
    ExecutedHits(Plan(levels, tasks, k), tasks[i]);
    PlanHits(levels, tasks, i, k);
  }

  /** When no node is listed on two items of the dict, a node is listed once or not at all
      on the items the loop runs. */
  lemma {:induction false} ListingsOnce(levels: LevelDict, i: nat, k: nat)
    requires k <= |levels|
    requires forall a, b :: 0 <= a < b < |levels| && Id(i) in levels[a].1 ==> Id(i) !in levels[b].1
    ensures Listings(levels, i, k) == if exists j :: 0 <= j < k && levels[j].0 != 0 && Id(i) in levels[j].1 then 1 else 0
  {
    if k > 0 {
      ListingsOnce(levels, i, k - 1);
      if levels[k - 1].0 != 0 && Id(i) in levels[k - 1].1 {
        assert !exists j :: 0 <= j < k - 1 && levels[j].0 != 0 && Id(i) in levels[j].1;
      }
    }
  }

  /** Over the whole breadth-first level dict of a graph holding "s", the loop runs each
      task of a list without repeats exactly once when its node is reachable from "s", and
      never otherwise. */
  lemma ReachableTasksRunOnce<T>(g: DiGraph, tasks: seq<T>, i: nat)
    requires Source in g.nodes && Distinct(tasks) && i < |tasks|
    ensures LevelsFor(g, None).Ok?
    ensures var d := LevelsFor(g, None).value;
      multiset(Executed(Plan(d, tasks, |d|)))[tasks[i]] == if Reachable(g, Id(i)) then 1 else 0
  {
    LevelsByDistance(g);
    LevelsListReachable(g, Id(i));
    var d := LevelsFor(g, None).value;
    ExecutedCount(d, tasks, i, |d|);
    ListingsOnce(d, i, |d|);
    if Reachable(g, Id(i)) {
      var j :| 0 <= j < |d| && Id(i) in d[j].1;
      assert j != 0;
    }
  }
}
