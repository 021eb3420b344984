/** The task of the pydwt generation: decorating a function registers the task in the
    workflow's task list under the function's qualified name; `run` asks the schedule
    and, when it says yes, calls the function up to `retry + 1` times, counting the calls
    in `_count_call`. The date `is_scheduled` is asked about is a parameter, and so is the
    behaviour of the user function (an oracle telling which attempts return normally). */
module PydwtTask {
  import opened Common
  import opened Schedule
  import opened Retry

  /** The `workflow.tasks` list tasks register into. A Python list is shared by
      reference, so it is an object of its own. */
  class TaskList {
    var items: seq<Task>

    constructor ()
      ensures items == []
    {
      items := [];
    }

    /** `list.append`. */
    method Append(t: Task)
      modifies this
      ensures items == old(items) + [t]
    {
      items := items + [t];
    }
  }

  /** The right-hand side of `task == other`: a `Task`, or an object of any other class. */
  datatype Other = TaskObject(task: Task) | NotATask

  class Task {
    var dependsOn: seq<Callable>
    var runsOn: Schedule
    var retry: int
    /** Set when the task decorates a function; "" stands for the unset attribute. */
    var name: string
    /** `_task`: the decorated function, None until then. */
    var task: Option<Callable>
    /** `_count_call`: the calls made by the last retry loop. */
    var countCall: int

    /** `Task(depends_on, runs_on, retry)`. */
    constructor (dependsOn: seq<Callable>, runsOn: Schedule, retry: int)
      ensures this.dependsOn == dependsOn && this.runsOn == runsOn && this.retry == retry
      ensures name == "" && task == None && countCall == 0
    {
      this.dependsOn := dependsOn;
      this.runsOn := runsOn;
      this.retry := retry;
      name := "";
      task := None;
      countCall := 0;
    }

    /** The `depends_on_name` property: `module.name` of each dependency, in declaration
        order; empty when there are none. */
    function DependsOnName(): (r: seq<string>)
      reads this
      ensures |r| == |dependsOn|
      ensures forall i :: 0 <= i < |dependsOn| ==> r[i] == QualifiedName(dependsOn[i])
    {
      var r := QualifiedNames(dependsOn);
      assert forall i :: 0 <= i < |dependsOn| ==> r[i] == QualifiedName(dependsOn[i]) by {
        forall i | 0 <= i < |dependsOn| {
          QualifiedNamesAt(dependsOn, i);
        }
      }
      r
    }

    /** The `runs_on_name` property: the schedule's class name. */
    function RunsOnName(): string
      reads this
    {
      ClassName(runsOn)
    }

    /** `task(func)`, the decorator: binds the function, names the task after it, appends
        the task to the workflow's list and returns a wrapper that calls the function
        with the same arguments and returns its result, that is, behaves as the function
        itself. */
    method Decorate(func: Callable, registry: TaskList) returns (wrapper: Callable)
      modifies this, registry
      ensures task == Some(func) && name == QualifiedName(func)
      ensures registry.items == old(registry.items) + [this]
      ensures wrapper == func
      ensures dependsOn == old(dependsOn) && runsOn == old(runsOn) && retry == old(retry)
      ensures countCall == old(countCall)
    {
      task := Some(func);
      name := func.moduleName + "." + func.funcName;
      registry.Append(this);
      wrapper := func;
    }

    /** `task == other`: only a `Task` can be equal, and then when the two dependency-name
        sets, schedule class names, retries and names agree. */
    function Equals(other: Other): (r: bool)
      reads this, if other.TaskObject? then {other.task} else {}
      ensures r <==> (other.TaskObject?
        && (forall n :: n in DependsOnName() <==> n in other.task.DependsOnName())
        && RunsOnName() == other.task.RunsOnName()
        && retry == other.task.retry && name == other.task.name)
    {
      other.TaskObject?
      && Elems(DependsOnName()) == Elems(other.task.DependsOnName())
      && RunsOnName() == other.task.RunsOnName()
      && retry == other.task.retry && name == other.task.name
    }

    /** `_run_task_with_retry`: reset the count, then call the function once per attempt,
        counting the call before making it, until one returns or `retry + 1` were made.
        A raising call is only logged; nothing else changes. */
    method RunTaskWithRetry(succeeds: nat -> bool)
      modifies this`countCall
      ensures countCall == Attempts(retry, succeeds)
    {
      countCall := 0;
      var n := 0;
      while n < retry + 1
        invariant 0 <= n && (retry >= 0 ==> n <= retry + 1) && (retry < 0 ==> n == 0) && countCall == n
        invariant n <= retry ==> Attempts(retry, succeeds) == AttemptsFrom(retry, succeeds, n)
        invariant retry >= 0 && n == retry + 1 ==> Attempts(retry, succeeds) == n
        decreases retry + 1 - n
      {
        countCall := countCall + 1;
        if succeeds(n) {
          assert AttemptsFrom(retry, succeeds, n) == n + 1;
          break;
        }
        n := n + 1;
      }
      if retry < 0 {
        assert Attempts(retry, succeeds) == 0;
      }
    }

    /** `run`: an unscheduled task changes nothing; a scheduled one runs the retry loop
        once. A schedule that raises (a `Monthly` weekday outside 0..6) makes `run` raise
        before any call. */
    method Run(date: Date, succeeds: nat -> bool) returns (err: Option<Exception>)
      requires ValidDate(date)
      modifies this`countCall
      ensures match IsScheduled(runsOn, date)
        case Raised(e) => err == Some(e) && countCall == old(countCall)
        case Ok(scheduled) =>
          err == None && countCall == if scheduled then Attempts(retry, succeeds) else old(countCall)
    {
      var scheduled := IsScheduled(runsOn, date);
      if scheduled.Raised? {
        return Some(scheduled.exc);
      }
      if !scheduled.value {
        return None;
      }
      RunTaskWithRetry(succeeds);
      return None;
    }
  }

  /** Task equality is an equivalence on tasks and never holds against another class. */
  lemma EqualsIsEquivalence(a: Task, b: Task, c: Task)
    ensures a.Equals(TaskObject(a))
    ensures a.Equals(TaskObject(b)) ==> b.Equals(TaskObject(a))
    ensures a.Equals(TaskObject(b)) && b.Equals(TaskObject(c)) ==> a.Equals(TaskObject(c))
    ensures !a.Equals(NotATask)
  {
  }

  /** Equality ignores the order and repetition of dependencies, the decorated function
      and the call count, but not the retry: tasks differing in retry are unequal. */
  lemma EqualsIgnoresOrder(a: Task, b: Task)
    requires Elems(a.dependsOn) == Elems(b.dependsOn)
    requires ClassName(a.runsOn) == ClassName(b.runsOn) && a.retry == b.retry && a.name == b.name
    ensures a.Equals(TaskObject(b))
  {
    forall n | n in a.DependsOnName() ensures n in b.DependsOnName() {
      var i :| 0 <= i < |a.dependsOn| && a.DependsOnName()[i] == n;
      assert a.dependsOn[i] in b.dependsOn;
      var j :| 0 <= j < |b.dependsOn| && b.dependsOn[j] == a.dependsOn[i];
      assert b.DependsOnName()[j] == n;
    }
    forall n | n in b.DependsOnName() ensures n in a.DependsOnName() {
      var j :| 0 <= j < |b.dependsOn| && b.DependsOnName()[j] == n;
      assert b.dependsOn[j] in a.dependsOn;
      var i :| 0 <= i < |a.dependsOn| && a.dependsOn[i] == b.dependsOn[j];
      assert a.DependsOnName()[i] == n;
    }
  }

  /** A Daily task is always scheduled, so `run` performs exactly one retry loop. */
  lemma DailyAlwaysRuns(date: Date)
    requires ValidDate(date)
    ensures IsScheduled(Daily, date) == Ok(true)
  {
  }
}
