/** The tasks of the pydbt generation. A `Task` is registered like the pydwt one; its
    `run` adds a time-to-live gate: with `ttl_minutes > 0` the first scheduled run records
    `_next_run`, and later runs do nothing until that moment has passed. Each attempt of
    the retry loop first looks up `config["tasks"][name]` and then calls the function with
    that configuration. `AsyncTask` repeats the class without the configuration lookup.
    Clock reads are integer minutes given as parameters: `now` is the reading
    `is_ttl_elapsed` compares with, `doneAt` the later one `set_next_run` makes. */
module PydbtTask {
  import opened Common
  import opened Schedule
  import opened Retry

  /** The class-level `Workflow.tasks` list tasks register into. */
  class TaskList {
    var items: seq<Task>

    constructor ()
      ensures items == []
    {
      items := [];
    }

    /** `list.append`. */
    method Append(t: Task)
      modifies this
      ensures items == old(items) + [t]
    {
      items := items + [t];
    }
  }

  /** The configuration dict: `config["tasks"][name]` is the configuration of a task. */
  type Config = map<string, map<string, string>>

  /** `config["tasks"][name]`, or None where that raises KeyError. */
  function TaskConfig(config: Config, name: string): (r: Option<string>)
    ensures r.Some? <==> "tasks" in config && name in config["tasks"]
    ensures r.Some? ==> r.value == config["tasks"][name]
  {
    if "tasks" in config && name in config["tasks"] then Some(config["tasks"][name]) else None
  }

  /** The calls a `Task` retry loop makes: none when the configuration lookup fails (every
      attempt then raises before the count), else one per attempt as for any retry loop,
      the function being called with the task's configuration. */
  function ConfiguredAttempts(retry: int, cfg: Option<string>, succeeds: string -> nat -> bool): nat
  {
    match cfg
    case None => 0
    case Some(c) => Attempts(retry, succeeds(c))
  }

  /** What `==` compares: the set of dependency names, the schedule class name, retry,
      time-to-live and name. */
  datatype Definition = Definition(depNames: set<string>, runsOnName: string, retry: int, ttlMinutes: int, name: string)

  /** The right-hand side of `==`: a `Task`, an `AsyncTask`, or anything else. */
  datatype Other = TaskObject(task: Task) | AsyncTaskObject(asyncTask: AsyncTask) | NotATask

  // ------------------------------------------------------------------ time-to-live gate

  /** Whether a scheduled `run` reaches the retry loop: always on a first run with a
      positive time-to-live, once `_next_run` is set only when it lies strictly before
      `now`, and always when neither holds. */
  predicate TtlAllows(ttl: int, nextRun: Option<int>, now: int) {
    if ttl > 0 && nextRun.None? then true
    else if nextRun.Some? then nextRun.value < now
    else true
  }

  /** `_next_run` after a scheduled `run`: `set_next_run` follows every retry loop run
      under the gate, and records the clock then plus the time-to-live. */
  function NextRunAfter(ttl: int, nextRun: Option<int>, now: int, doneAt: int): Option<int> {
    if ttl > 0 && nextRun.None? then Some(doneAt + ttl)
    else if nextRun.Some? then (if nextRun.value < now then Some(doneAt + ttl) else nextRun)
    else nextRun
  }

  class Task {
    var dependsOn: seq<Callable>
    var runsOn: Schedule
    var retry: int
    var ttlMinutes: int
    /** Set when the task decorates a function; "" stands for the unset attribute. */
    var name: string
    /** `_next_run`, None until `set_next_run`. */
    var nextRun: Option<int>
    /** `_task`: the decorated function, None until then. */
    var task: Option<Callable>
    /** `_count_call`: the calls made by the last retry loop. */
    var countCall: int

    /** `Task(depends_on, runs_on, retry, ttl_minutes)`. */
    constructor (dependsOn: seq<Callable>, runsOn: Schedule, retry: int, ttlMinutes: int)
      ensures this.dependsOn == dependsOn && this.runsOn == runsOn
      ensures this.retry == retry && this.ttlMinutes == ttlMinutes
      ensures name == "" && nextRun == None && task == None && countCall == 0
    {
      this.dependsOn := dependsOn;
      this.runsOn := runsOn;
      this.retry := retry;
      this.ttlMinutes := ttlMinutes;
      name := "";
      nextRun := None;
      task := None;
      countCall := 0;
    }

    /** The `depends_on_name` property. */
    function DependsOnName(): (r: seq<string>)
      reads this`dependsOn
      ensures |r| == |dependsOn|
      ensures forall i :: 0 <= i < |dependsOn| ==> r[i] == QualifiedName(dependsOn[i])
    {
      var r := QualifiedNames(dependsOn);
      assert forall i :: 0 <= i < |dependsOn| ==> r[i] == QualifiedName(dependsOn[i]) by {
        forall i | 0 <= i < |dependsOn| {
          QualifiedNamesAt(dependsOn, i);
        }
      }
      r
    }

    /** The fields equality compares. */
    function Def(): Definition
      reads this`dependsOn, this`runsOn, this`retry, this`ttlMinutes, this`name
    {
      Definition(Elems(DependsOnName()), ClassName(runsOn), retry, ttlMinutes, name)
    }

    /** The `is_ttl_elapsed` property, read only once `_next_run` is set. */
    function IsTtlElapsed(now: int): bool
      reads this
      requires nextRun.Some?
    {
      nextRun.value < now
    }

    /** `set_next_run`: the clock reading plus the time-to-live. */
    method SetNextRun(clock: int)
      modifies this`nextRun
      ensures nextRun == Some(clock + ttlMinutes)
    {
      nextRun := Some(clock + ttlMinutes);
    }

    /** `task(func)`, the decorator, as in the pydwt generation. */
    method Decorate(func: Callable, registry: TaskList) returns (wrapper: Callable)
      modifies this, registry
      ensures task == Some(func) && name == QualifiedName(func)
      ensures registry.items == old(registry.items) + [this]
      ensures wrapper == func
      ensures dependsOn == old(dependsOn) && runsOn == old(runsOn) && retry == old(retry)
      ensures ttlMinutes == old(ttlMinutes) && nextRun == old(nextRun) && countCall == old(countCall)
    {
      task := Some(func);
      name := func.moduleName + "." + func.funcName;
      registry.Append(this);
      wrapper := func;
    }

    /** `task == other`: only a `Task` can be equal; an `AsyncTask` never is. */
    function Equals(other: Other): (r: bool)
      reads this, if other.TaskObject? then {other.task} else {}
      ensures r <==> (other.TaskObject?
        && (forall n :: n in DependsOnName() <==> n in other.task.DependsOnName())
        && ClassName(runsOn) == ClassName(other.task.runsOn) && retry == other.task.retry
        && ttlMinutes == other.task.ttlMinutes && name == other.task.name)
    {
      other.TaskObject? && Def() == other.task.Def()
    }

    /** `_run_task_with_retry`: each attempt looks the configuration up, then counts the
        call and makes it, until a call returns or `retry + 1` attempts were made. */
    method RunTaskWithRetry(config: Config, succeeds: string -> nat -> bool)
      modifies this`countCall
      ensures countCall == ConfiguredAttempts(retry, TaskConfig(config, name), succeeds)
    {
      ghost var cfg := TaskConfig(config, name);
      ghost var calls: nat -> bool := if cfg.Some? then succeeds(cfg.value) else (n: nat) => false;
      countCall := 0;
      var n := 0;
      while n < retry + 1
        invariant 0 <= n && (retry >= 0 ==> n <= retry + 1) && (retry < 0 ==> n == 0)
        invariant cfg.None? ==> countCall == 0
        invariant cfg.Some? ==> countCall == n
        invariant cfg.Some? && n <= retry ==> Attempts(retry, calls) == AttemptsFrom(retry, calls, n)
        invariant cfg.Some? && retry >= 0 && n == retry + 1 ==> Attempts(retry, calls) == n
        decreases retry + 1 - n
      {
        if "tasks" in config && name in config["tasks"] {
          var taskConfig := config["tasks"][name];
          countCall := countCall + 1;
          if succeeds(taskConfig)(n) {
            assert AttemptsFrom(retry, calls, n) == n + 1;
            break;
          }
        }
        n := n + 1;
      }
      if cfg.Some? {
        if retry < 0 {
          assert Attempts(retry, calls) == 0;
        }
      }
    }

    /** `run`: nothing changes unless the schedule says yes; then the time-to-live gate
        decides whether the retry loop runs, and `_next_run` is recomputed after it when
        the time-to-live is in use. */
    method Run(date: Date, now: int, doneAt: int, config: Config, succeeds: string -> nat -> bool)
      returns (err: Option<Exception>)
      requires ValidDate(date)
      modifies this`nextRun, this`countCall
      ensures match IsScheduled(runsOn, date)
        case Raised(e) => err == Some(e) && nextRun == old(nextRun) && countCall == old(countCall)
        case Ok(false) => err == None && nextRun == old(nextRun) && countCall == old(countCall)
        case Ok(true) =>
          && err == None
          && nextRun == NextRunAfter(ttlMinutes, old(nextRun), now, doneAt)
          && countCall == if TtlAllows(ttlMinutes, old(nextRun), now)
                          then ConfiguredAttempts(retry, TaskConfig(config, name), succeeds)
                          else old(countCall)
    {
      var scheduled := IsScheduled(runsOn, date);
      if scheduled.Raised? {
        return Some(scheduled.exc);
      }
      if !scheduled.value {
        return None;
      }
      if ttlMinutes > 0 && nextRun.None? {
        RunTaskWithRetry(config, succeeds);
        SetNextRun(doneAt);
      } else if nextRun.Some? {
        if IsTtlElapsed(now) {
          RunTaskWithRetry(config, succeeds);
          SetNextRun(doneAt);
        }
      } else {
        RunTaskWithRetry(config, succeeds);
      }
      return None;
    }
  }

  class AsyncTask {
    var dependsOn: seq<Callable>
    var runsOn: Schedule
    var retry: int
    var ttlMinutes: int
    var name: string
    var nextRun: Option<int>
    var task: Option<Callable>
    var countCall: int

    /** `AsyncTask(depends_on, runs_on, retry, ttl_minutes)`. */
    constructor (dependsOn: seq<Callable>, runsOn: Schedule, retry: int, ttlMinutes: int)
      ensures this.dependsOn == dependsOn && this.runsOn == runsOn
      ensures this.retry == retry && this.ttlMinutes == ttlMinutes
      ensures name == "" && nextRun == None && task == None && countCall == 0
    {
      this.dependsOn := dependsOn;
      this.runsOn := runsOn;
      this.retry := retry;
      this.ttlMinutes := ttlMinutes;
      name := "";
      nextRun := None;
      task := None;
      countCall := 0;
    }

    /** The `depends_on_name` property. */
    function DependsOnName(): (r: seq<string>)
      reads this`dependsOn
      ensures |r| == |dependsOn|
      ensures forall i :: 0 <= i < |dependsOn| ==> r[i] == QualifiedName(dependsOn[i])
    {
      var r := QualifiedNames(dependsOn);
      assert forall i :: 0 <= i < |dependsOn| ==> r[i] == QualifiedName(dependsOn[i]) by {
        forall i | 0 <= i < |dependsOn| {
          QualifiedNamesAt(dependsOn, i);
        }
      }
      r
    }

    /** The fields equality compares. */
    function Def(): Definition
      reads this`dependsOn, this`runsOn, this`retry, this`ttlMinutes, this`name
    {
      Definition(Elems(DependsOnName()), ClassName(runsOn), retry, ttlMinutes, name)
    }

    /** `async_task == other`: `isinstance(other, Task)` admits only a `Task`, so another
        `AsyncTask`, this one included, is never equal. */
    function Equals(other: Other): (r: bool)
      reads this, if other.TaskObject? then {other.task} else {}
      ensures r <==> (other.TaskObject?
        && (forall n :: n in DependsOnName() <==> n in other.task.DependsOnName())
        && ClassName(runsOn) == ClassName(other.task.runsOn) && retry == other.task.retry
        && ttlMinutes == other.task.ttlMinutes && name == other.task.name)
    {
      other.TaskObject? && Def() == other.task.Def()
    }

    /** `set_next_run`. */
    method SetNextRun(clock: int)
      modifies this`nextRun
      ensures nextRun == Some(clock + ttlMinutes)
    {
      nextRun := Some(clock + ttlMinutes);
    }

    /** `async_task(func)`, the decorator: binds the function, names the task after it
        and returns a wrapper that behaves as the function itself. */
    method Decorate(func: Callable) returns (wrapper: Callable)
      modifies this`task, this`name
      ensures task == Some(func) && name == QualifiedName(func)
      ensures wrapper == func
    {
      task := Some(func);
      name := func.moduleName + "." + func.funcName;
      wrapper := func;
    }

    /** `_run_task_with_retry`, awaited call by call: no configuration lookup, so every
        attempt is counted. */
    method RunTaskWithRetry(succeeds: nat -> bool)
      modifies this`countCall
      ensures countCall == Attempts(retry, succeeds)
    {
      countCall := 0;
      var n := 0;
      while n < retry + 1
        invariant 0 <= n && (retry >= 0 ==> n <= retry + 1) && (retry < 0 ==> n == 0) && countCall == n
        invariant n <= retry ==> Attempts(retry, succeeds) == AttemptsFrom(retry, succeeds, n)
        invariant retry >= 0 && n == retry + 1 ==> Attempts(retry, succeeds) == n
        decreases retry + 1 - n
      {
        countCall := countCall + 1;
        if succeeds(n) {
          assert AttemptsFrom(retry, succeeds, n) == n + 1;
          break;
        }
        n := n + 1;
      }
      if retry < 0 {
        assert Attempts(retry, succeeds) == 0;
      }
    }

    /** `run`, with each await completed before the next step: the same gates as
        `Task.run`. */
    method Run(date: Date, now: int, doneAt: int, succeeds: nat -> bool) returns (err: Option<Exception>)
      requires ValidDate(date)
      modifies this`nextRun, this`countCall
      ensures match IsScheduled(runsOn, date)
        case Raised(e) => err == Some(e) && nextRun == old(nextRun) && countCall == old(countCall)
        case Ok(false) => err == None && nextRun == old(nextRun) && countCall == old(countCall)
        case Ok(true) =>
          && err == None
          && nextRun == NextRunAfter(ttlMinutes, old(nextRun), now, doneAt)
          && countCall == if TtlAllows(ttlMinutes, old(nextRun), now) then Attempts(retry, succeeds) else old(countCall)
    {
      var scheduled := IsScheduled(runsOn, date);
      if scheduled.Raised? {
        return Some(scheduled.exc);
      }
      if !scheduled.value {
        return None;
      }
      if ttlMinutes > 0 && nextRun.None? {
        RunTaskWithRetry(succeeds);
        SetNextRun(doneAt);
      } else if nextRun.Some? {
        if nextRun.value < now {
          RunTaskWithRetry(succeeds);
          SetNextRun(doneAt);
        }
      } else {
        RunTaskWithRetry(succeeds);
      }
      return None;
    }
  }

  // ------------------------------------------------------------------ properties

  /** A missing `config["tasks"][name]` entry makes every attempt fail before it is
      counted: the count ends at 0 and the function is never called. With the entry, the
      count is that of a retry loop over the configured function, at most `retry + 1`. */
  lemma ConfiguredAttemptsSpec(retry: int, cfg: Option<string>, succeeds: string -> nat -> bool)
    ensures cfg.None? ==> ConfiguredAttempts(retry, cfg, succeeds) == 0
    ensures cfg.Some? && retry >= 0 ==>
      var c := ConfiguredAttempts(retry, cfg, succeeds);
      && 1 <= c <= retry + 1
      && (forall j :: 0 <= j < c - 1 ==> !succeeds(cfg.value)(j))
      && (succeeds(cfg.value)(c - 1) || c == retry + 1)
  {
    if cfg.Some? {
      AttemptsSpec(retry, succeeds(cfg.value));
    }
  }

  /** The time-to-live gate, case by case: a first run with a positive time-to-live runs
      and sets `_next_run` to the later clock plus the time-to-live; once set, a run before
      or at `_next_run` does nothing and keeps it, a run after it runs and recomputes it;
      with no positive time-to-live and nothing set, every run runs and nothing is set. */
  lemma TtlGate(ttl: int, nextRun: Option<int>, now: int, doneAt: int)
    ensures ttl > 0 && nextRun.None? ==>
      TtlAllows(ttl, nextRun, now) && NextRunAfter(ttl, nextRun, now, doneAt) == Some(doneAt + ttl)
    ensures nextRun.Some? && nextRun.value >= now ==>
      !TtlAllows(ttl, nextRun, now) && NextRunAfter(ttl, nextRun, now, doneAt) == nextRun
    ensures nextRun.Some? && nextRun.value < now ==>
      TtlAllows(ttl, nextRun, now) && NextRunAfter(ttl, nextRun, now, doneAt) == Some(doneAt + ttl)
    ensures ttl <= 0 && nextRun.None? ==>
      TtlAllows(ttl, nextRun, now) && NextRunAfter(ttl, nextRun, now, doneAt) == None
  {
  }

  /** The clock readings of one scheduled `run`. */
  datatype Clock = Clock(now: int, doneAt: int)

  /** `_next_run` after a series of scheduled runs. */
  function Replay(ttl: int, nextRun: Option<int>, clocks: seq<Clock>): Option<int>
  {
    if clocks == [] then nextRun
    else
      var c := clocks[|clocks| - 1];
      NextRunAfter(ttl, Replay(ttl, nextRun, clocks[..|clocks| - 1]), c.now, c.doneAt)
  }

  /** Whether run k of a series reaches the retry loop. */
  predicate Executes(ttl: int, nextRun: Option<int>, clocks: seq<Clock>, k: nat)
    requires k < |clocks|
  {
    TtlAllows(ttl, Replay(ttl, nextRun, clocks[..k]), clocks[k].now)
  }

  /** The last run of a series that reached the retry loop. */
  function LastExecution(ttl: int, nextRun: Option<int>, clocks: seq<Clock>): (r: Option<nat>)
    ensures r.Some? ==> r.value < |clocks| && Executes(ttl, nextRun, clocks, r.value)
  {
    if clocks == [] then None
    else if Executes(ttl, nextRun, clocks, |clocks| - 1) then Some(|clocks| - 1)
    else
      var r := LastExecution(ttl, nextRun, clocks[..|clocks| - 1]);
      if r.None? then None
      else
        assert clocks[..|clocks| - 1][..r.value] == clocks[..r.value];
        r
  }

  /** With a positive time-to-live and no previous run, `_next_run` is unset until the
      first run and afterwards always the clock after the last run that reached the retry
      loop plus the time-to-live: every run that reaches it is more than `ttl` minutes
      after the previous one finished. */
  lemma {:induction false} ReplayTracksLastExecution(ttl: int, clocks: seq<Clock>)
    requires ttl > 0
    ensures Replay(ttl, None, clocks)
      == match LastExecution(ttl, None, clocks)
         case None => None
         case Some(k) => Some(clocks[k].doneAt + ttl)
  {
    if clocks != [] {
      var init := clocks[..|clocks| - 1];
      assert clocks[..|clocks| - 1] == init;
      ReplayTracksLastExecution(ttl, init);
    }
  }

  /** With no positive time-to-live and no previous run, `_next_run` is never set and
      every scheduled run reaches the retry loop. */
  lemma {:induction false} ReplayWithoutTtl(ttl: int, clocks: seq<Clock>)
    requires ttl <= 0
    ensures Replay(ttl, None, clocks) == None
    ensures forall k :: 0 <= k < |clocks| ==> Executes(ttl, None, clocks, k)
  {
    if clocks != [] {
      var init := clocks[..|clocks| - 1];
      ReplayWithoutTtl(ttl, init);
      forall k | 0 <= k < |clocks| ensures Executes(ttl, None, clocks, k) {
        if k < |clocks| - 1 {
          assert clocks[..k] == init[..k];
          assert Executes(ttl, None, init, k);
        }
      }
    }
  }

  /** `AsyncTask.__eq__` accepts only a `Task`: an `AsyncTask` is never equal to itself or
      to another `AsyncTask`, and `Task.__eq__` never accepts an `AsyncTask`, so comparing
      the two classes depends on which side the `AsyncTask` is on. */
  lemma AsyncEqualsAsymmetric(a: AsyncTask, b: AsyncTask, t: Task)
    ensures !a.Equals(AsyncTaskObject(b)) && !a.Equals(AsyncTaskObject(a))
    ensures !t.Equals(AsyncTaskObject(a))
    ensures a.Def() == t.Def() ==> a.Equals(TaskObject(t))
  {
  }

  /** `Task` equality is an equivalence that also compares the time-to-live. */
  lemma EqualsIsEquivalence(a: Task, b: Task, c: Task)
    ensures a.Equals(TaskObject(a))
    ensures a.Equals(TaskObject(b)) ==> b.Equals(TaskObject(a))
    ensures a.Equals(TaskObject(b)) && b.Equals(TaskObject(c)) ==> a.Equals(TaskObject(c))
    ensures a.ttlMinutes != b.ttlMinutes ==> !a.Equals(TaskObject(b))
    ensures !a.Equals(NotATask)
  {
  }
}
