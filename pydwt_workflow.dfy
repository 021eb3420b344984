/** The workflow of the pydwt generation: the task list the decorators fill, and `run`,
    which walks the level dict in order and hands every level but 0 to an executor. The
    executor is abstracted to the run it is given (its batch and worker count), assuming
    that no task's `run` raises: then it runs every task of its batch once and returns
    when they are all done. A raising `run` leaves the executor's `join` waiting forever,
    so `run` does not return. */
module PydwtWorkflow {
  import opened Common
  import opened Levels
  import opened LevelRuns
  import PydwtTask

  class Workflow {
    /** `tasks`: the list the task decorator appends to. */
    const tasks: PydwtTask.TaskList

    /** `Workflow()`: an empty task list. */
    constructor ()
      ensures fresh(tasks) && tasks.items == []
    {
      tasks := new PydwtTask.TaskList();
    }

    /** `run` over a given level dict: one executor run per item of the dict other than
        level 0, in the dict's order, each with the tasks of the list whose position is in
        the level's node list, in list order, and one worker per task. */
    method Run(levels: LevelDict) returns (runs: seq<LevelRun<PydwtTask.Task>>)
      ensures runs == Plan(levels, tasks.items, |levels|)
    {
      var items := tasks.items;
      runs := [];
      var k := 0;
      while k < |levels|
        invariant 0 <= k <= |levels|
        invariant runs == Plan(levels, items, k)
      {
        var (level, ids) := levels[k];
        if level != 0 {
          var batch := SelectBatch(items, ids);
          runs := runs + [LevelRun(level, batch, |batch|)];
        }
        k := k + 1;
      }
    }
  }
}
