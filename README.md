# pydwt / pydbt orchestration core in Dafny

pydwt, and pydbt before it, is a small Python framework for running data-transformation tasks.
Each task is a decorated Python function with dependencies, a schedule and a retry count. In
pydbt a task also has a time-to-live. The framework does the following:

- builds a networkx directed graph from the tasks, where a synthetic source node `"s"` feeds
  every task without dependencies;
- groups the nodes into levels by breadth-first distance from `"s"`;
- runs the tasks level by level;
- in pydbt, reconciles the task list with one cached by an earlier run. The newest cache file
  is picked by the timestamp in its name.

This project models that orchestration logic for both package generations, and proves what the
code promises about it.

| file | module | models |
|---|---|---|
| `common.dfy` | `Common` | Python-side values: results and exceptions, task statuses, qualified function names, `list.index`, negative indexing |
| `graph.dfy` | `Graph` | a networkx `DiGraph` as a value (nodes and edges in insertion order), `add_node`, `add_edges_from`, predecessors and successors, the BFS frontiers from `"s"`, and the BFS-tree path to a node |
| `levels.dfy` | `Levels` | the `{level: [nodes]}` dictionary built by both `build_level`s, with and without a target |
| `retry.dfy` | `Retry` | the bounded retry loop shared by every task class |
| `schedule.dfy` | `Schedule` | the proleptic Gregorian calendar, `Calendar.monthdatescalendar`, and the five schedule predicates |
| `pydwt_dag.dfy`, `pydwt_dag_props.dfy`, `pydwt_parents.dfy` | `PydwtDag`, `PydwtDagProps`, `PydwtParents` | pydwt's `Dag` class (`build_dag`, `build_level`, `check_parents_status`) and what its maps and graph satisfy |
| `pydbt_dag.dfy` | `PydbtDag` | pydbt's `Dag` class, which builds its graph on construction |
| `pydwt_task.dfy`, `pydbt_task.dfy` | `PydwtTask`, `PydbtTask` | the task classes: registration, equality, the schedule gate, pydbt's TTL gate, and the retry loop |
| `level_runs.dfy` | `LevelRuns` | the level-by-level batching of both `Workflow.run`s |
| `pydwt_workflow.dfy` | `PydwtWorkflow` | pydwt's `Workflow` |
| `pydbt_artifacts.dfy` | `PydbtArtifacts` | `extract_timestamp` and `get_latest_run_tasks` over a given directory listing |
| `pydbt_workflow.dfy` | `PydbtWorkflow` | pydbt's `Workflow`: `compare_tasks`, the cache decision of `__post_init__`, and `run` |

The model's conventions:

- Integer node ids are `Id(i)` and the source is `Source`.
- A user function is an oracle `attempt -> succeeds`.
- `datetime.now()` is an integer number of minutes passed in as a parameter.
- A date is passed explicitly to `is_scheduled`.

## Model

| member | source | states |
|---|---|---|
| Common.FirstIndex | pydbt/core/dag.py:40 | `list.index`: None exactly when the value is absent, otherwise the position of its first occurrence |
| Common.PyIndex | pydwt/core/dag.py:111 | Python list indexing: succeeds exactly for -len <= j < len, a negative index counts from the end, anything else raises IndexError |
| Retry.AttemptsSpec | pydwt/core/task.py:115-129 | with retry < 0 the loop makes no call; otherwise it makes between 1 and retry+1 calls, every call before the last one failed, and the last one succeeded or was call retry+1 |
| Retry.AttemptsFromSpec | pydwt/core/task.py:117-121 | the same bound and stopping rule for the loop resumed at attempt n |
| Retry.SucceededIff | pydwt/core/task.py:117-129 | the loop ends in a success iff one of attempts 0..retry succeeds; if none does, exactly retry+1 calls are made |
| Retry.RetryTwice | pydbt/core/task.py:111-126 | with retry=2, a function that always raises is called 3 times and the loop fails; one that fails twice and then returns is called 3 times and succeeds |
| Retry.FirstCallSucceeds | pydwt/core/task.py:117-121 | when the first call returns, the loop stops after exactly one call |
| Schedule.Weekday | pydwt/core/schedule.py:37 | `date.weekday()` is in 0..6 |
| Schedule.WeekdayIsOrdinal | pydwt/core/schedule.py:37 | the weekday is (proleptic ordinal + 6) mod 7, with Monday = 0, as Python's `date.weekday()` computes it |
| Schedule.DaysBeforeYearFormula | pydwt/core/schedule.py:37 | days before year y are 365(y-1) plus the Gregorian leap-day count (y-1)/4 - (y-1)/100 + (y-1)/400 |
| Schedule.MonthDatesCalendar | pydwt/core/schedule.py:49 | `monthdatescalendar` returns at least four weeks of seven dates each |
| Schedule.CalendarWeekdays | pydwt/core/schedule.py:13 | weeks start on Monday: position j of every week is a valid date with weekday j, spill-over days included |
| Schedule.CalendarMatches | pydwt/core/schedule.py:54 | the `d.month == date.month` filter discards exactly the spill-over days from neighbouring months |
| Schedule.MatchingDates | pydwt/core/schedule.py:49-55 | the month's dates on weekday w, in order, are its occurrences of w starting at the first one; the list is empty for w outside 0..6 |
| Schedule.EveryOther | pydwt/core/schedule.py:55 | `xs[::2]` keeps elements 0, 2, 4, … and has length ceil(len/2) |
| Schedule.DailyAlways | pydwt/core/schedule.py:23-27 | `Daily` is scheduled on every date |
| Schedule.WeeklyIff | pydwt/core/schedule.py:36-37 | `Weekly(w)` is scheduled iff the date's weekday is w, so it is never scheduled for w outside 0..6 |
| Schedule.MonthlyIff | pydwt/core/schedule.py:67-75 | `Monthly(w)` is scheduled iff the date has weekday w and day <= 7; for w outside 0..6, `[0]` on the empty list raises IndexError |
| Schedule.MonthlyByDay | pydwt/core/schedule.py:67-75 | `Monthly(w)` is scheduled iff the day is the month's first occurrence of weekday w |
| Schedule.SemiMonthlyIff | pydwt/core/schedule.py:48-56 | `SemiMonthly(w)` is scheduled iff the date has weekday w and is the 1st, 3rd or 5th occurrence ((day-1)/7 even); never for w outside 0..6 |
| Schedule.SemiMonthlyByDay | pydwt/core/schedule.py:48-56 | `SemiMonthly(w)` is scheduled iff the day is a whole number of fortnights after the first occurrence of w |
| Schedule.LastOpenDay | pydwt/core/schedule.py:84-90 | the last Monday-to-Friday day lies within the month |
| Schedule.LastOpenDayIsLast | pydwt/core/schedule.py:84-90 | that day is a weekday and every later day of the month is a Saturday or Sunday |
| Schedule.LastOpenDayUnique | pydwt/core/schedule.py:84-90 | a date is the last open day iff it is a weekday and no later weekday exists in its month |
| Schedule.MonthlyLastOpenDayIff | pydwt/core/schedule.py:84-90 | `MonthlyLastOpenDayInMonth` is scheduled iff the date is the last Monday-to-Friday day of its month; it never raises, because the last week always holds one |
| Schedule.ScheduledMonthEnds | tests/test_schedule.py:61-70 | 2023-02-28, 2023-01-31, 2022-12-30 and 2022-07-29 are scheduled |
| Schedule.UnscheduledMonthEnds | tests/test_schedule.py:73-77 | 2022-12-31 and 2022-07-31 are not scheduled |
| Graph.AddNode | pydbt/core/dag.py:36 | `add_node(n, name=…)` keeps every node and edge, adds n when it is new, and sets its name attribute |
| Graph.AddNodeFacts | pydwt/core/dag.py:38 | after `add_node` the nodes are the old ones plus n; well-formedness is kept |
| Graph.AddEdge | pydwt/core/dag.py:58 | adding an edge adds both endpoints and the edge, keeping what was there |
| Graph.AddEdgeFacts | pydwt/core/dag.py:58 | after adding (u, v) the nodes are the old ones plus u and v, and the edges are the old ones plus (u, v) |
| Graph.AddEdgesFromEdges | pydwt/core/dag.py:58 | `add_edges_from(es)` yields the old edge set together with the edges of es |
| Graph.AddEdgesFromNodes | pydbt/core/dag.py:47 | `add_edges_from(es)` yields the old node set together with every endpoint of es |
| Graph.Successors | pydwt/core/dag.py:76 | v is listed iff (u, v) is an edge; no duplicates |
| Graph.Predecessors | pydwt/core/dag.py:107 | u is listed iff (u, v) is an edge; no duplicates |
| Graph.EdgeView | tests/test_dags.py:39-41 | `graph.edges()` lists exactly the graph's edges |
| Graph.BfsFrontiers | pydwt/core/dag.py:76 | `bfs_tree` from "s" raises NetworkXError iff "s" is not a node; otherwise the first frontier is ["s"] and none is empty |
| Graph.FrontiersAreLayers | pydbt/core/dag.py:52-54 | frontier k holds exactly the nodes at distance k from "s", and the frontiers cover everything reachable |
| Graph.ListedIffReachable | pydbt/core/dag.py:52-54 | a node appears in some frontier iff it is reachable from "s" |
| Graph.TreePath | pydwt/core/dag.py:82 | the path to a node of frontier k has k+1 nodes, follows edges from "s", and its i-th node lies at distance i |
| Graph.TreePathShortest | pydwt/core/dag.py:82 | no path from "s" to the node is shorter than that path |
| Graph.TreePathDistinct | pydwt/core/dag.py:82 | that path visits no node twice |
| Levels.Insert | pydwt/core/dag.py:90-92 | a known level key leaves the key list unchanged; a new one is appended with [node] |
| Levels.GroupItems | pydwt/core/dag.py:89-92 | the loop over `level.items()` builds the grouping of the (node, level) items |
| Levels.GroupDistances | pydbt/core/dag.py:56-59 | grouping the BFS (node, distance) items gives level k = frontier k, with keys in increasing order |
| Levels.LevelsFor | pydwt/core/dag.py:74-92 | `build_level` fails only with NetworkXError, NodeNotFound or NoPath; with a target it numbers the BFS-tree path to it |
| Levels.LevelItems | pydwt/core/dag.py:89 | the items walked succeed exactly when `build_level` does, and their grouping is its result; with a target they follow the BFS-tree path |
| Levels.LevelsByDistance | pydbt/core/dag.py:49-59 | without a target it raises when "s" is absent; otherwise level 0 is ["s"], the keys are 0, 1, … in order, and level k lists exactly the nodes at distance k, each once |
| Levels.NoTargetLevels | pydwt/core/dag.py:86-88 | without a target the levels are the numbered BFS frontiers |
| Levels.LevelsListReachable | pydwt/core/dag.py:88-92 | a node is listed iff it is reachable from "s", and it is listed in at most one level |
| Levels.TargetLevels | pydwt/core/dag.py:80-85 | with a reachable target the levels number the nodes of the BFS-tree path to it |
| Levels.LevelsAlongPath | pydwt/core/dag.py:80-85 | an unreachable target raises NoPath; otherwise each level holds one node, level 0 is "s", the last level is the target at its BFS distance, and consecutive levels are joined by edges |
| Levels.ReachableLevels | pydwt/core/dag.py:80-85 | for a target listed by the BFS, the BFS-tree path's levels: one node each, "s" first, the target last at its BFS distance, consecutive levels joined by edges |
| Levels.SingletonLevels | pydwt/core/dag.py:83-84 | numbering a path from "s" one node per level gives one level per node, level 0 = "s", and edges between consecutive levels |
| Levels.PathLevelsShortest | pydwt/core/dag.py:82 | there are no more target levels than nodes on any path from "s" to the target |
| Levels.PathLevelsDistinct | pydwt/core/dag.py:82 | two different target levels never hold the same node |
| LevelRuns.Batch | pydwt/core/workflow.py:43 | a level's batch has no more entries than the task list |
| LevelRuns.SelectedSpec | pydwt/core/workflow.py:43 | the batch's task positions are valid, increasing and listed in the level; every listed valid position is selected; "s" and ids >= len(tasks) select nothing |
| LevelRuns.BatchIsSelected | pydwt/core/workflow.py:43 | the batch is the tasks at the selected positions, in `self.tasks` order |
| LevelRuns.SelectBatch | pydbt/core/workflow.py:83 | the comprehension builds exactly that batch |
| LevelRuns.PlanSpec | pydbt/core/workflow.py:77-95 | one run per non-zero level, in the dictionary's order; each run's batch is the level's selection and its worker count is the batch size |
| LevelRuns.PlanSkipsSource | pydwt/core/workflow.py:37-53 | level 0 never runs, and every executor gets one worker per batched task |
| LevelRuns.BatchCount | pydwt/core/workflow.py:43 | among distinct tasks, task i is batched once if its id is in the level and never otherwise |
| LevelRuns.BatchAbsent | pydwt/core/workflow.py:43 | a task not in the list is never batched |
| LevelRuns.ExecutedCount | pydwt/core/workflow.py:37-54 | a task runs as many times as its id is listed in non-zero levels |
| LevelRuns.ListingsOnce | pydwt/core/workflow.py:37-54 | when an id is listed in at most one level, it is counted once or not at all |
| LevelRuns.ReachableTasksRunOnce | pydbt/core/workflow.py:74-95 | over `dag.levels`, every task runs exactly once if its node is reachable from "s", and never otherwise |
| PydwtDag.DepId | pydwt/core/dag.py:43-51 | a dependency reuses an existing id iff its name is already in `node_names`; otherwise it takes the fresh id `len(node_names)` |
| PydwtDag.BuildLoop | pydwt/core/dag.py:31-58 | the loops of `build_dag` produce `node_names`, `node_index` and the graph as specified |
| PydwtDag.TasksLoop | pydwt/core/dag.py:35-56 | the task loop's final progress, and the graph as its `add_node` calls left it |
| PydwtDag.TaskLoop | pydwt/core/dag.py:36-56 | one task's body |
| PydwtDag.DepsLoop | pydwt/core/dag.py:41-54 | the dependency loop, one step per declared dependency |
| PydwtDag.TargetId | pydwt/core/dag.py:74 | `node_index.get(target)` is found iff a target is given and it is a key |
| PydwtDag.Lookup | pydwt/core/dag.py:111 | looking up a parent task fails only with IndexError |
| PydwtDag.Dag.constructor | pydwt/core/dag.py:15-21 | a new Dag has no tasks, an empty graph and empty maps |
| PydwtDag.Dag.SetTasks | pydwt/core/dag.py:27-29 | the `tasks` setter replaces the list and nothing else |
| PydwtDag.Dag.BuildDag | pydwt/core/dag.py:31-58 | `build_dag` leaves the tasks alone and sets the maps and the graph as the build specifies |
| PydwtDag.Dag.BuildLevel | pydwt/core/dag.py:60-93 | `build_level(target)` returns the levels along the BFS-tree path to the target's index, or the no-target levels when the name is not in `node_index` |
| PydwtDag.Dag.CheckParentsStatus | pydwt/core/dag.py:95-120 | returns the parents' verdict with the code's `tasks[p - 1]` lookup |
| PydwtDagProps.DepStepNames | pydwt/core/dag.py:43-52 | a dependency's id carries its name first; a known name changes nothing else; an unknown one appends the name and one `add_node` call |
| PydwtDagProps.AfterTaskNames | pydwt/core/dag.py:36 | after task i, `node_names[i]` is its name and no other entry changed |
| PydwtDagProps.AfterTaskIndex | pydwt/core/dag.py:37 | after task i, `node_index` maps its name to i and is otherwise unchanged |
| PydwtDagProps.AfterTaskEdges | pydwt/core/dag.py:40-56 | task i adds only edges into i: exactly ("s", i) without dependencies, otherwise one edge per dependency |
| PydwtDagProps.TasksNames | pydwt/core/dag.py:35-36 | `node_names[i]` ends as task i's name, even when a dependency took id i earlier |
| PydwtDagProps.NameIndexLast | pydwt/core/dag.py:37 | `node_index` holds exactly the task names; each maps to the last task carrying it |
| PydwtDagProps.TasksIndex | pydwt/core/dag.py:37 | the loop's `node_index` is that last-occurrence map, so lazily created dependency ids never enter it |
| PydwtDagProps.TaskSources | pydwt/core/dag.py:40-56 | the edges into task i come from "s" alone when it has no dependencies; otherwise there is one per dependency and none from "s" |
| PydwtDagProps.BuildNames | pydwt/core/dag.py:35-38 | after `build_dag`, node i is task i by name, and `node_index` is the last-occurrence map |
| PydwtDagProps.BuildGraphNames | pydwt/core/dag.py:52 | every id in `node_names` is a graph node whose name attribute agrees |
| PydwtDagProps.BuildParents | pydwt/core/dag.py:40-56 | "s" is a predecessor of task i iff it has no dependencies, and every task has a predecessor |
| PydwtParents.VerdictSuccess | pydwt/core/dag.py:107-120 | the verdict is SUCCESS iff every non-"s" parent looks up as SUCCESS |
| PydwtParents.VerdictFirst | pydwt/core/dag.py:107-118 | the verdict is the lookup of the first parent, in insertion order, that is not SUCCESS, so an earlier PENDING hides a later ERROR |
| PydwtParents.LookupShifted | pydwt/core/dag.py:111 | parent id p reads `tasks[p-1]`; p = 0 wraps to the last task, or raises on an empty list |
| PydwtParents.LookupOutOfRange | pydwt/core/dag.py:111 | ids beyond the list raise IndexError |
| PydwtParents.BuiltLookupFound | pydwt/core/dag.py:104-107 | after `build_dag`, a task's name is in `node_index`, and the check walks its node's predecessors |
| PydwtParents.BuiltLookupMissing | pydwt/core/dag.py:104 | a name carried by no task raises KeyError |
| PydwtParents.BuiltIndexDistinct | pydwt/core/dag.py:35-37 | with distinct names, `node_index` and `node_names` are inverse for every task |
| PydwtParents.ChainEdges | pydwt/core/dag.py:40-56 | for a two-task chain the edges are ("s", 0) and (0, 1) |
| PydwtParents.ChainParents | pydwt/core/dag.py:107 | in the chain, task 1's only predecessor is task 0 |
| PydwtParents.ChainGraphParents | pydwt/core/dag.py:107 | any graph with the chain's edge set gives node 1 the single predecessor 0 |
| PydwtParents.ChainCheckAsWritten | pydwt/core/dag.py:111 | as written, a chain whose first task succeeded and whose second is pending reports PENDING for the second task |
| PydwtParents.ChainCheckCorrected | pydwt/core/dag.py:111 | with `tasks[parent_index]` the chain reports the first task's own status |
| PydwtParents.CorrectedLookup | pydwt/core/dag.py:111 | with `tasks[parent_index]`, id p reads the task that node p is named after |
| PydbtDag.DepEdges | pydbt/core/dag.py:39-42 | the dependency edges succeed iff every dependency name is a task name, else raise ValueError; one edge per dependency |
| PydbtDag.TaskEdges | pydbt/core/dag.py:38-45 | a task without dependencies gets exactly ("s", index); otherwise it gets the dependency edges |
| PydbtDag.TaskEdgeShape | pydbt/core/dag.py:38-45 | each edge of a task ends at the task, starts at "s" iff it has no dependencies, and otherwise starts at the first task carrying the dependency's name |
| PydbtDag.TaskEdgeFrom | pydbt/core/dag.py:40 | every dependency contributes the edge from `tasks_names.index(dep)` |
| PydbtDag.AddTaskNodesNames | pydbt/core/dag.py:34-36 | node i exists and is named after task i |
| PydbtDag.BuildSucceedsIff | pydbt/core/dag.py:38-43 | building fails iff some dependency name is no task's name, and then with ValueError |
| PydbtDag.EdgeOwner | pydbt/core/dag.py:43 | an edge is collected iff it belongs to the edges of the task it ends at |
| PydbtDag.BuiltNodes | pydbt/core/dag.py:33-36 | the built graph's nodes are the task ids plus "s" when present, each id named after its task |
| PydbtDag.BuiltSource | pydbt/core/dag.py:44-47 | "s" is a node iff some task has no dependencies |
| PydbtDag.BuiltEdges | pydbt/core/dag.py:38-47 | (u, i) is an edge iff u is "s" for a task without dependencies, or the first task named like one of its dependencies |
| PydbtDag.BuildGraph | pydbt/core/dag.py:30-47 | the graph gets its nodes and then the collected edges, or the ValueError and the nodes added before it |
| PydbtDag.CollectEdges | pydbt/core/dag.py:32-45 | the loop collects the edges of all tasks, or stops at the first failing task |
| PydbtDag.FirstFailure | pydbt/core/dag.py:38-43 | the first task with an unknown dependency decides the error, after its own node was added |
| PydbtDag.StopsAt | pydbt/core/dag.py:32-45 | once a task's edges raise, later tasks do not change the outcome |
| PydbtDag.Rebuild | pydbt/core/dag.py:30-47 | building again on the built graph changes neither nodes nor edges |
| PydbtDag.Dag.Create | pydbt/core/dag.py:13-18 | `Dag(tasks)` raises ValueError iff building fails; otherwise it holds the tasks and the built graph |
| PydbtDag.Dag.Init | pydbt/core/dag.py:13-17 | the fields before `build_dag`: the tasks and an empty graph |
| PydbtDag.Dag.BuildDag | pydbt/core/dag.py:30-47 | `build_dag` adds the nodes and collected edges to the current graph, or reports the ValueError |
| PydbtDag.Dag.BuildLevel | pydbt/core/dag.py:49-59 | `nodes_by_level` becomes the BFS levels, or the exception propagates and the field keeps its value |
| PydbtDag.Dag.Levels | pydbt/core/dag.py:20-28 | the `levels` property recomputes and returns the BFS levels and stores them |
| PydbtDag.TwoTaskChain | tests/test_dags.py:17-53 | for the test's two-task chain: nodes [0, 1, "s"], edges [(0,1), ("s",0)], node 0 named after the first function, levels {0:["s"], 1:[0], 2:[1]} |
| PydbtDag.ChainLevels | tests/test_dags.py:50-53 | the chain graph's edge view and levels |
| PydbtDag.ChainFrontiers | pydbt/core/dag.py:52-54 | the chain graph's BFS frontiers are ["s"], [0], [1] |
| PydwtTask.TaskList.constructor | pydwt/core/workflow.py:22 | the registry starts empty |
| PydwtTask.TaskList.Append | pydwt/core/task.py:58 | registration appends the task at the end |
| PydwtTask.Task.constructor | pydwt/core/task.py:28-33 | the dataclass fields as given; no name or function yet; no call counted |
| PydwtTask.Task.DependsOnName | pydwt/core/task.py:38-44 | the qualified names of the dependencies, in declaration order; empty when there are none |
| PydwtTask.Task.Decorate | pydwt/core/task.py:50-64 | `__call__` binds the function, names the task `module.function`, appends it to the workflow once, and returns a wrapper that behaves as the function; nothing else changes |
| PydwtTask.Task.Equals | pydwt/core/task.py:105-113 | equal iff the other is a Task with the same dependency-name set, schedule class name, retry and name |
| PydwtTask.Task.RunTaskWithRetry | pydwt/core/task.py:115-129 | `_count_call` ends as the number of attempts of the retry loop |
| PydwtTask.Task.Run | pydwt/core/task.py:94-103 | an unscheduled task invokes nothing; a scheduled one runs exactly one retry loop; the loop never raises |
| PydwtTask.EqualsIsEquivalence | pydwt/core/task.py:105-113 | task equality is reflexive, symmetric and transitive, and never holds for a non-Task |
| PydwtTask.EqualsIgnoresOrder | pydwt/core/task.py:108 | the dependency order and duplicates do not matter to equality |
| PydwtTask.DailyAlwaysRuns | pydwt/core/task.py:98 | a `Daily` task always passes the schedule gate |
| PydwtWorkflow.Workflow.constructor | pydwt/core/workflow.py:22 | a workflow starts with an empty task list |
| PydwtWorkflow.Workflow.Run | pydwt/core/workflow.py:31-54 | the runs are the level plan over `self.tasks`: level 0 skipped, one run per other level in order |
| PydbtTask.TaskList.constructor | pydbt/core/workflow.py:24 | the registry starts empty |
| PydbtTask.TaskList.Append | pydbt/core/task.py:70 | registration appends the task at the end |
| PydbtTask.TaskConfig | pydbt/core/task.py:115 | `config["tasks"][name]` is found iff both keys exist |
| PydbtTask.ConfiguredAttemptsSpec | pydbt/core/task.py:111-126 | without a config entry every attempt fails before counting, so `_count_call` stays 0; with one, the retry bound and stopping rule hold |
| PydbtTask.Task.constructor | pydbt/core/task.py:25-31 | the dataclass fields as given; `_next_run` and `_task` unset |
| PydbtTask.Task.DependsOnName | pydbt/core/task.py:36-42 | the qualified names of the dependencies, in declaration order |
| PydbtTask.Task.SetNextRun | pydbt/core/task.py:52-60 | `_next_run` becomes the clock plus `ttl_minutes` |
| PydbtTask.Task.Decorate | pydbt/core/task.py:62-76 | binds the function, names the task, appends it once to the workflow, returns the function's wrapper, and changes nothing else |
| PydbtTask.Task.Equals | pydbt/core/task.py:78-87 | equal iff the other is a Task with the same dependency-name set, schedule class name, retry, ttl and name |
| PydbtTask.Task.RunTaskWithRetry | pydbt/core/task.py:111-126 | `_count_call` ends as the configured attempt count |
| PydbtTask.Task.Run | pydbt/core/task.py:89-109 | unscheduled: nothing changes; scheduled: the TTL gate decides whether the loop runs, and `_next_run` moves as the gate prescribes |
| PydbtTask.TtlGate | pydbt/core/task.py:99-109 | first run with ttl > 0: runs and sets the next run; a set `_next_run` not strictly before now skips and keeps it; an elapsed one runs and recomputes it; ttl <= 0 with none set: runs and never sets it |
| PydbtTask.LastExecution | pydbt/core/task.py:99-107 | the last run in a sequence of calls that executed the loop |
| PydbtTask.ReplayTracksLastExecution | pydbt/core/task.py:99-107 | over any sequence of scheduled runs with ttl > 0, `_next_run` is the finish time of the last executing run plus ttl |
| PydbtTask.ReplayWithoutTtl | pydbt/core/task.py:108-109 | with ttl <= 0, `_next_run` is never set and every run executes the loop |
| PydbtTask.EqualsIsEquivalence | pydbt/core/task.py:78-87 | equality is an equivalence on Tasks, distinguishes different ttls, and never holds for a non-Task |
| PydbtTask.AsyncTask.constructor | pydbt/core/task.py:141-147 | the dataclass fields as given |
| PydbtTask.AsyncTask.DependsOnName | pydbt/core/task.py:149-155 | the qualified names of the dependencies, in order |
| PydbtTask.AsyncTask.Equals | pydbt/core/task.py:190-199 | equal iff the other is a (plain) Task with the same fields |
| PydbtTask.AsyncTask.SetNextRun | pydbt/core/task.py:165-173 | `_next_run` becomes the clock plus `ttl_minutes` |
| PydbtTask.AsyncTask.Decorate | pydbt/core/task.py:175-188 | binds the function, names the task, and returns a wrapper that behaves as the function |
| PydbtTask.AsyncTask.RunTaskWithRetry | pydbt/core/task.py:223-237 | counts attempts with no config lookup |
| PydbtTask.AsyncTask.Run | pydbt/core/task.py:201-221 | the same schedule and TTL gates as `Task.run`, around the unconfigured loop |
| PydbtTask.AsyncEqualsAsymmetric | pydbt/core/task.py:190-199 | an AsyncTask is equal to no AsyncTask, itself included, and no Task equals an AsyncTask, yet an AsyncTask can equal a Task |
| PydbtArtifacts.BeforeIsStrictTotalOrder | pydbt/core/workflow.py:148 | datetime comparison is a strict total order |
| PydbtArtifacts.Format | pydbt/core/workflow.py:27 | `strftime("%Y%m%d_%H:%M:%S")` of a four-digit year has 17 characters |
| PydbtArtifacts.DigitCharDigit | pydbt/core/workflow.py:123 | a digit's character reads back as that digit |
| PydbtArtifacts.DigitDigitChar | pydbt/core/workflow.py:123 | a digit character is the character of its value |
| PydbtArtifacts.StrptimeAccepts | pydbt/core/workflow.py:123 | `strptime` of a matched group succeeds iff its fields form a valid datetime, and otherwise raises ValueError |
| PydbtArtifacts.StrptimeFormat | pydbt/core/workflow.py:123 | parsing a formatted timestamp gives the timestamp back |
| PydbtArtifacts.FormatStrptime | pydbt/core/workflow.py:123 | formatting a parsed group gives the group back |
| PydbtArtifacts.Search | pydbt/core/workflow.py:119 | a search result is a position where `_\d{8}_\d{2}:\d{2}:\d{2}` matches |
| PydbtArtifacts.SearchIsLeftmost | pydbt/core/workflow.py:119 | `re.search` finds the leftmost match, and None means there is no match anywhere |
| PydbtArtifacts.ExtractTimestampSpec | pydbt/core/workflow.py:117-125 | raises AttributeError (on `None.group`) iff the name has no match; otherwise it parses the group of the leftmost match |
| PydbtArtifacts.DumpFileTimestamp | pydbt/core/workflow.py:101 | the dump file `task_<artifact_name>.pkl` is a `.pkl` name whose extracted timestamp is the one formatted into it |
| PydbtArtifacts.PklFilesSpec | pydbt/core/workflow.py:138 | the listing filtered to the names ending in `.pkl` |
| PydbtArtifacts.Timestamps | pydbt/core/workflow.py:145 | one timestamp per file |
| PydbtArtifacts.TimestampsOk | pydbt/core/workflow.py:145 | the comprehension succeeds iff every extraction does, and then holds them in order |
| PydbtArtifacts.TimestampsRaised | pydbt/core/workflow.py:145 | a failure is the exception of the first file that fails |
| PydbtArtifacts.Latest | pydbt/core/workflow.py:148 | `max` returns one of the timestamps |
| PydbtArtifacts.LatestIsMaximum | pydbt/core/workflow.py:148 | no timestamp is later than `max`'s |
| PydbtArtifacts.GetLatestNone | pydbt/core/workflow.py:141-142 | the result is None iff no listed name ends in `.pkl` |
| PydbtArtifacts.GetLatestRaised | pydbt/core/workflow.py:145 | the call raises iff some `.pkl` name has no valid timestamp, with that name's exception |
| PydbtArtifacts.GetLatestIsLatest | pydbt/core/workflow.py:147-151 | the chosen file is a listed `.pkl` name, and no `.pkl` name has a later timestamp |
| PydbtArtifacts.GetLatestIsFirst | pydbt/core/workflow.py:148-149 | every `.pkl` name before the chosen one has a strictly earlier timestamp |
| PydbtWorkflow.Names | pydbt/core/workflow.py:172-173 | the task names, one per task, in order |
| PydbtWorkflow.AddedSpec | pydbt/core/workflow.py:177 | `added` holds exactly the new tasks whose names are not among the old names, in `news` order |
| PydbtWorkflow.UpdatedSpec | pydbt/core/workflow.py:186-199 | `updated` holds one choice for each new task whose name is known, in `news` order |
| PydbtWorkflow.PicksCount | pydbt/core/workflow.py:177-199 | `added` and `updated` together have one entry per new task |
| PydbtWorkflow.PicksAreExpected | pydbt/core/workflow.py:200 | the result has one entry per new task; the first `len(added)` entries are the ones with unknown names |
| PydbtWorkflow.PicksComplete | pydbt/core/workflow.py:200 | every new task's expected entry appears in the result |
| PydbtWorkflow.PicksOrdered | pydbt/core/workflow.py:200 | within `added` and within `updated`, entries follow `news` order |
| PydbtWorkflow.CompareTasksSpec | pydbt/core/workflow.py:153-200 | one entry per new task, none twice: first the unknown-name ones in `news` order, then the rest in `news` order |
| PydbtWorkflow.ExpectedKeepsName | pydbt/core/workflow.py:190-199 | each entry carries its new task's name; a kept old task equals the new one |
| PydbtWorkflow.ResultNamesArePermutation | pydbt/core/workflow.py:172-200 | the result's names are a permutation of the new names, and any old task kept has a name still in `news` |
| PydbtWorkflow.RefreshedSpec | pydbt/core/workflow.py:198 | an old task's function is either untouched or replaced by the function of a new task it was kept for; untouched when no new task equals it |
| PydbtWorkflow.KeptTasksGetFreshFunctions | pydbt/core/workflow.py:198 | with distinct new names, every kept old task ends with its new task's function |
| PydbtWorkflow.Kept | pydbt/core/workflow.py:176 | the old tasks still named in `news` are valid positions |
| PydbtWorkflow.KeptStep | pydbt/core/workflow.py:176 | the `next(...)` search over the filtered olds steps one old task at a time |
| PydbtWorkflow.NextNamedIsFirst | pydbt/core/workflow.py:190 | `next(t for t in olds if t.name == name)` finds the first old task with that name |
| PydbtWorkflow.AddedNamesIff | pydbt/core/workflow.py:178 | a new name is in `added_names` iff it is not an old name |
| PydbtWorkflow.Defs | pydbt/core/workflow.py:78-87 | the fields equality reads, one per task |
| PydbtWorkflow.Funcs | pydbt/core/workflow.py:198 | the `_task` of each task |
| PydbtWorkflow.Realize | pydbt/core/workflow.py:193-199 | the task objects the entries denote, one per entry |
| PydbtWorkflow.CompareTasks | pydbt/core/workflow.py:153-200 | returns the specified merge; only old tasks' `_task` fields change, as the refresh prescribes |
| PydbtWorkflow.LookupsHold | pydbt/core/workflow.py:172-178 | the filtered olds and `added_names` answer the loop's questions as the specification does |
| PydbtWorkflow.UpdateLoop | pydbt/core/workflow.py:186-199 | the loop appends exactly `updated` and refreshes the kept tasks' functions |
| PydbtWorkflow.Iteration | pydbt/core/workflow.py:188-199 | one loop iteration keeps the loop invariant |
| PydbtWorkflow.KnownIteration | pydbt/core/workflow.py:189-199 | a known name appends the new task when it differs, else the old task with the new function |
| PydbtWorkflow.Views | pydbt/core/workflow.py:69 | the view the Dag takes of each task: name and dependencies |
| PydbtWorkflow.ExecuteLevels | pydbt/core/workflow.py:77-102 | the runs are the level plan, and with caching on there is one dump to `task_<artifact_name>.pkl` per run |
| PydbtWorkflow.Workflow.Init | pydbt/core/workflow.py:24-30 | the fields as given |
| PydbtWorkflow.Workflow.Create | pydbt/core/workflow.py:32-69 | `__post_init__`: a listing that fails to parse raises; tasks become `compare_tasks(olds, tasks)` exactly when the cache strategy and `use_cache` are set and the artifact is non-empty; then `Dag(tasks)` is built or its ValueError raised |
| PydbtWorkflow.Workflow.Assemble | pydbt/core/workflow.py:69 | the final `Dag(self.tasks)`, raising exactly when building does |
| PydbtWorkflow.Workflow.CachedTasks | pydbt/core/workflow.py:41-67 | the task list after the cache step, and which functions were refreshed |
| PydbtWorkflow.Workflow.Run | pydbt/core/workflow.py:71-102 | `run` raises when the levels do; otherwise it executes the level plan, with one dump per run when caching is on |

## Left out

- Thread executors (`ThreadExecutor`, queues, workers). An executor run is modelled as "every
  task of the batch is run exactly once". The run records the batch and its worker count.
  This assumes that no task's `run` raises and that every task is a plain `Task`; the model
  does not capture the two cases where that fails:
  - A raising `task.run()` ends its worker thread before `task_done()`
    (pydwt/core/executors.py:39-44, pydbt/core/executors.py:26-31), so `self._queue.join()`
    never returns and `Workflow.run` hangs. `PydwtTask.Task.Run` raises for `Monthly(w)` with
    w outside 0..6; for such a task `PydwtWorkflow.Workflow.Run`, `PydbtWorkflow.ExecuteLevels`
    and `PydbtWorkflow.Workflow.Run` return a full plan where the source never returns.
  - A pydbt `AsyncTask` appended to `Workflow.tasks` (pydbt/core/task.py:182) is never
    executed: the worker's `task.run()` only creates its coroutine and never awaits it, so
    its function is never called.
- The SQL layer (DataFrame, Session, materializations), connections and datasources, `Project`,
  the CLI, and the dependency-injection containers. They are outside the orchestration core.
- Cache file I/O (`pydbt/core/cache.py`, pickle). The loaded artifact is a parameter of
  `Workflow.Create`, and only the dump path is modelled, not what a dump writes.
- `os.listdir` and `os.makedirs`. The directory listing is a parameter.
- `export_dag` (plotting) and all logging, including `traceback.print_exc`. The
  `logging.debug(..., end="\n")` calls of `check_parents_status` (lines 106, 112, 114 and
  117 of pydwt/core/dag.py) raise TypeError once DEBUG logging is enabled. At the configured
  INFO level (pydwt/core/project.py:39) they do nothing, and `PydwtDag.Dag.CheckParentsStatus`
  models that case only.
- Real clocks. Every `datetime.now()` becomes a parameter: `now` for the TTL check, `doneAt`
  for `set_next_run`, and the date of `is_scheduled`. The source calls `is_scheduled()` with no
  argument, so the date actually used is the default fixed when the module was imported. That
  default is not modelled.
- asyncio. `AsyncTask`'s awaits are modelled as sequential calls.
- The `sources` and `config` objects handed to the user function. They are opaque; only the
  `config["tasks"][name]` lookup is modelled.
- The unset `name` attribute of an undecorated task. Reading it raises AttributeError in
  Python; the model uses "".
- Graph.TreePath: `nx.shortest_path` searches from both ends at once. It can return a
  different shortest path than the BFS-tree path modelled here. For example, take tasks A, B
  and D with D depending on B then A: networkx returns ["s", 1, 2], the BFS tree gives
  ["s", 0, 2].
- Levels.LevelsFor: with a target, the value numbers the BFS-tree path, which can differ from
  networkx's path as above.
- Levels.LevelItems: same as Levels.LevelsFor.
- Levels.TargetLevels: states the levels of the BFS-tree path, not of networkx's path.
- Levels.ReachableLevels: its path is the BFS-tree path. Its stated shape is shared by every
  shortest path: one node per level, "s" first, the target last, edges between levels.
- PydwtDag.Dag.BuildLevel: with a target in `node_index`, the result is the BFS-tree path's
  levels. Levels.LevelsAlongPath, Levels.PathLevelsShortest and Levels.PathLevelsDistinct
  state what holds for any shortest path.
- PydbtArtifacts.ExtractTimestampSpec: `\d` is modelled as ASCII `0`–`9`, though Python's
  `\d` also matches other Unicode digits.
- PydbtArtifacts.Format: years beyond 9999 are excluded.
- PydwtWorkflow.Workflow.Run:
  - pydwt's `Workflow.__post_init__` calls `Dag(self.tasks)` and `run` reads `dag.levels`,
    but pydwt's `Dag()` takes no argument and has no `levels`.
  - The model takes the levels as a parameter of `Run`, and leaves `__post_init__` out.
- PydbtWorkflow.CompareTasks: two assumptions are stated as requirements, because the model
  compares object identities.
  - The cached tasks are distinct objects.
  - None of them is one of the freshly registered tasks.
  - Both hold when the dumped list held each task object once. A merge can put one cached
    object in the list twice: two fresh tasks share a name and both equal it. The next
    load then repeats it. That case is not covered.
- PydbtWorkflow.Workflow.Create carries the same requirements on the artifact.
- PydbtTask.Task.Run: pydbt's tasks import their schedule classes from `pydbt.core.schedule`,
  which is not part of this model. The model assumes they behave as pydwt/core/schedule.py's.
- PydbtTask.AsyncTask.Run: the same schedule assumption as PydbtTask.Task.Run.
- PydbtTask.AsyncTask.Decorate: the append to the class-level `Workflow.tasks` list is not
  modelled. That list belongs to a `Workflow` class this module does not hold.
- Aliasing of the shared `tasks` list between Workflow and Dag.
  - A Dag reads value snapshots (name, dependencies, status) of the tasks.
  - Later mutation of the task objects is not reflected in a Dag.
- Task status transitions. No code of the two cores assigns `status`, and the module defining the enum is
  not part of this model. Status is an input that `check_parents_status` reads.
- pydwt's retry loop does not set any status field, so none is modelled.
- The injected `config`. tests/test_task.py:39-43 expects `_count_call == 1` after one run.
  That holds only if `config["tasks"]` has an entry for the task's name. Without one, the
  lookup raises before the count is incremented, and the count stays 0
  (PydbtTask.ConfiguredAttemptsSpec). The test's container configuration is not part of this
  model. With an entry and a function that returns, one call is made (Retry.FirstCallSucceeds).
- PydwtDag.Dag.CheckParentsStatus: the code's `tasks[parent_index - 1]` is kept (see Findings).

## Findings

| source | as written | input that shows it | evidently intended | confidence | as-written member | corrected member |
|---|---|---|---|---|---|---|
| pydwt/core/dag.py:111 | the parent with node id p is read as `self.tasks[parent_index - 1]`, but `build_dag` gives task i node id i | two tasks, the second depending on the first; the first has status SUCCESS and the second PENDING; checking the second reports PENDING (its own status) instead of SUCCESS | `self.tasks[parent_index]`, the task the node was created for | not executed | PydwtParents.ChainCheckAsWritten | PydwtParents.ChainCheckCorrected |
