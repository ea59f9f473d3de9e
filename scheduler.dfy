/** Periodic ingestion tasks (`app/ingestion/scheduler.py`). The clock is a parameter
    (`now`, in minutes) and each task's callable is a handle (`job`); whether the call
    completes or raises is the parameter `completes`, indexed by the task's position. */
module Scheduler {
  import opened Wrappers

  datatype Task = Task(name: string, job: int, interval: int, lastRun: Option<int>, nextRun: int)

  /** The name `schedule_task` gives a task when none is passed. */
  const DefaultTaskName := "unnamed_task"

  predicate Due(t: Task, now: int) {
    t.nextRun <= now
  }

  /** A task after one pass of `run_pending`: a due task whose call completes is stamped
      with `now` and rescheduled one interval later; any other task is left as it was. */
  function AfterRun(t: Task, now: int, completes: bool): Task {
    if Due(t, now) && completes then t.(lastRun := Some(now), nextRun := now + t.interval) else t
  }

  /** The task list after one pass. */
  function AfterPass(tasks: seq<Task>, now: int, completes: nat -> bool): (r: seq<Task>)
    ensures |r| == |tasks|
    ensures forall i :: 0 <= i < |tasks| ==> r[i] == AfterRun(tasks[i], now, completes(i))
  {
    seq(|tasks|, i requires 0 <= i < |tasks| => AfterRun(tasks[i], now, completes(i)))
  }

  /** The positions, among the first `n`, of the tasks that are due, in list order. */
  function DueAmong(tasks: seq<Task>, now: int, n: nat): seq<nat>
    requires n <= |tasks|
  {
    if n == 0 then []
    else DueAmong(tasks, now, n - 1) + (if Due(tasks[n - 1], now) then [n - 1] else [])
  }

  /** Exactly the due tasks are called, each once, in increasing position. */
  lemma {:induction false} DueAmongExactly(tasks: seq<Task>, now: int, n: nat)
    requires n <= |tasks|
    ensures forall i: nat :: i in DueAmong(tasks, now, n) <==> i < n && Due(tasks[i], now)
    ensures forall a, b :: 0 <= a < b < |DueAmong(tasks, now, n)| ==>
              DueAmong(tasks, now, n)[a] < DueAmong(tasks, now, n)[b]
  {
    if n > 0 {
      DueAmongExactly(tasks, now, n - 1);
      var prev := DueAmong(tasks, now, n - 1);
      var extra: seq<nat> := if Due(tasks[n - 1], now) then [n - 1] else [];
      assert DueAmong(tasks, now, n) == prev + extra;
      forall a | 0 <= a < |prev|
        ensures prev[a] < n - 1
      {
        assert prev[a] in prev;
      }
    }
  }

  /** After a pass, with positive intervals, the tasks still due at the same instant are
      exactly the due ones whose call raised. */
  lemma {:induction false} StillDueAfterPass(tasks: seq<Task>, now: int, completes: nat -> bool, i: nat)
    requires i < |tasks| && tasks[i].interval > 0
    ensures Due(AfterPass(tasks, now, completes)[i], now) <==> Due(tasks[i], now) && !completes(i)
  {
  }

  class DataScheduler {
    var tasks: seq<Task>

    /** A new scheduler has no tasks. */
    constructor()
      ensures tasks == []
    {
      tasks := [];
    }

    /** `schedule_task`: appends one task, never run, due at once. */
    method ScheduleTask(job: int, intervalMinutes: int, taskName: string, now: int)
      modifies this
      ensures tasks == old(tasks) + [Task(taskName, job, intervalMinutes, None, now)]
    {
      tasks := tasks + [Task(taskName, job, intervalMinutes, None, now)];
    }

    /** `run_pending`: calls every due task in list order, stamping those that complete.
        Returns the positions of the tasks it called. */
    method RunPending(now: int, completes: nat -> bool) returns (called: seq<nat>)
      modifies this
      ensures tasks == AfterPass(old(tasks), now, completes)
      ensures called == DueAmong(old(tasks), now, |old(tasks)|)
    {
      var before := tasks;
      called := [];
      var i := 0;
      while i < |tasks|
        invariant |tasks| == |before| && i <= |before|
        invariant forall k :: 0 <= k < i ==> tasks[k] == AfterRun(before[k], now, completes(k))
        invariant forall k :: i <= k < |before| ==> tasks[k] == before[k]
        invariant called == DueAmong(before, now, i)
      {
        var task := tasks[i];
        if task.nextRun <= now {
          called := called + [i];
          if completes(i) {
            tasks := tasks[i := task.(lastRun := Some(now), nextRun := now + task.interval)];
          }
        }
        i := i + 1;
      }
      assert tasks == AfterPass(before, now, completes);
    }
  }

  /** Scheduling one task on a new scheduler records its name and interval. */
  method ScheduleExample(now: int) returns (s: DataScheduler)
    ensures |s.tasks| == 1 && s.tasks[0].name == "test_task" && s.tasks[0].interval == 60
    ensures s.tasks[0].lastRun == None && s.tasks[0].nextRun == now
  {
    s := new DataScheduler();
    s.ScheduleTask(0, 60, "test_task", now);
  }

  /** A task scheduled at `now` runs on the next pass at `now`; once it completes it is not
      due again before its interval has passed. */
  method RunExample(now: int) returns (first: seq<nat>, second: seq<nat>)
    ensures first == [0] && second == []
  {
    var s := new DataScheduler();
    s.ScheduleTask(0, 60, DefaultTaskName, now);
    first := s.RunPending(now, _ => true);
    second := s.RunPending(now + 59, _ => true);
  }
}
