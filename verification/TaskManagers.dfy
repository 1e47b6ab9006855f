/** The task manager's own data, changed in place, against the steps that the proofs are about. */
module TaskManagers {
  import opened Scheduler
  import Waiting

  class TaskManager {
    const running: array<seq<TaskID>>
    var current_lvl: int
    var lvl_changed: bool
    var tasks: map<TaskID, Task>
    var msgs: map<TaskID, seq<Waiting.Message>>
    var finished_tasks: map<TaskID, int>
    var waiter_tasks: map<TaskID, TaskID>
    var latest_id: TaskID

    ghost predicate Shaped()
      reads this
    {
      running.Length == 4 && 0 <= current_lvl < 4
    }

    ghost function Queues(): Sched
      reads this, running
      requires Shaped()
    {
      Sched(running[..], current_lvl, lvl_changed, tasks)
    }

    ghost predicate Valid()
      reads this, running
    {
      Shaped() && Inv(Queues()) && msgs.Keys == tasks.Keys
    }

    /** The same without the promise that the idle task is ready. */
    ghost predicate Ordered()
      reads this, running
    {
      Shaped() && Sane(Queues()) && msgs.Keys == tasks.Keys
    }

    /** The manager as the waiting protocol sees it, without history. */
    ghost function View(): Waiting.Kernel
      reads this, running
      requires Shaped()
    {
      Waiting.Kernel(Queues(), msgs, map[], latest_id, finished_tasks, waiter_tasks, map[], [], false)
    }

    /** TaskManager::TaskManager: the main task and the idle task. */
    constructor ()
      ensures Valid() && fresh(running) && Queues() == Init() && latest_id == IDLE
      ensures finished_tasks == map[] && waiter_tasks == map[]
    {
      running := new seq<TaskID>[4](_ => []);
      current_lvl, lvl_changed := TASK_MAX_LEVEL, false;
      tasks := map[MAIN := Task(3, true), IDLE := Task(0, true)];
      msgs := map[MAIN := [], IDLE := []];
      finished_tasks, waiter_tasks, latest_id := map[], map[], IDLE;
      new;
      assert running[3] + [MAIN] == [MAIN] && running[0] + [IDLE] == [IDLE];
      running[3] := running[3] + [MAIN];
      running[0] := running[0] + [IDLE];
      assert running[..] == [[IDLE], [], [], [MAIN]];
      InitInv();
    }

    method RotateCurrentRunningQueue(current_sleep: bool) returns (current_task: TaskID)
      requires Shaped() && running[current_lvl] != []
      modifies this`current_lvl, this`lvl_changed, running
      ensures Shaped() && Queues() == Rotate(old(Queues()), current_sleep) && current_task == Front(old(Queues()))
    {
      ghost var s := Queues();
      var q := running[current_lvl];
      current_task := q[0];
      q := q[1..];
      if !current_sleep {
        q := q + [current_task];
      }
      running[current_lvl] := q;
      assert q == s.queues[s.current][1..] + (if current_sleep then [] else [current_task]);
      assert running[..] == s.queues[s.current := q];
      if q == [] {
        lvl_changed := true;
      }
      if lvl_changed {
        lvl_changed := false;
        current_lvl := TASK_MAX_LEVEL;
        while current_lvl > 0 && running[current_lvl] == []
          invariant 0 <= current_lvl < 4 && HighestFrom(running[..], 3) == HighestFrom(running[..], current_lvl)
          invariant running[..] == s.queues[s.current := q] && !lvl_changed
        {
          current_lvl := current_lvl - 1;
        }
        assert running[..][current_lvl] == running[current_lvl];
        assert current_lvl == HighestFrom(running[..], current_lvl);
      }
    }

    method Erase(level: nat, task: TaskID)
      requires Shaped() && level < 4
      modifies running
      ensures running[..] == old(running[..])[level := Remove(old(running[level]), task)]
    {
      running[level] := Remove(running[level], task);
    }

    /** TaskManager::Sleep. The queues run dry if the task was the only one that is ready. */
    method SleepTask(task: TaskID)
      requires Ordered() && task in tasks
      modifies this`current_lvl, this`lvl_changed, this`tasks, running
      ensures Shaped() && Queues() == Sleep(old(Queues()), task)
      ensures Ordered() <==> !old(tasks)[task].running || OtherReady(old(Queues()), task)
      ensures old(Valid()) && task != IDLE ==> Valid()
    {
      hide Placed, Quiet, NoDup, OtherReady;
      SleepIff(Queues(), task);
      if Valid() && task != IDLE { SleepInv(Queues(), task); }
      if !tasks[task].running {
        return;
      }
      tasks := tasks[task := tasks[task].(running := false)];
      if task == running[current_lvl][0] {
        var current_task := RotateCurrentRunningQueue(true);
        return;
      }
      Erase(tasks[task].level, task);
    }

    /** TaskManager::Wakeup. */
    method WakeupTask(task: TaskID, level: int)
      requires Ordered() && task in tasks && level < 4
      modifies this`current_lvl, this`lvl_changed, this`tasks, running
      ensures Ordered() && Queues() == Wakeup(old(Queues()), task, level)
      ensures old(Valid()) && task != IDLE ==> Valid()
    {
      hide Placed, Quiet, NoDup;
      WakeupSane(Queues(), task, level);
      if Valid() && task != IDLE { WakeupInv(Queues(), task, level); }
      if tasks[task].running {
        ChangeRunningLevel(task, level);
        return;
      }
      var lvl := if level < 0 then tasks[task].level else level;
      tasks := tasks[task := Task(lvl, true)];
      running[lvl] := running[lvl] + [task];
      if lvl > current_lvl {
        lvl_changed := true;
      }
    }

    method ChangeRunningLevel(task: TaskID, level: int)
      requires Ordered() && task in tasks && level < 4 && tasks[task].running
      modifies this`current_lvl, this`lvl_changed, this`tasks, running
      ensures Ordered() && Queues() == ChangeLevel(old(Queues()), task, level)
      ensures old(Valid()) && task != IDLE ==> Valid()
    {
      hide Placed, Quiet, NoDup;
      ChangeLevelSane(Queues(), task, level);
      if Valid() && task != IDLE { ChangeLevelInv(Queues(), task, level); }
      if level < 0 || tasks[task].level == level {
        return;
      }
      if task != running[current_lvl][0] {
        Erase(tasks[task].level, task);
        running[level] := running[level] + [task];
        tasks := tasks[task := tasks[task].(level := level)];
        if level > current_lvl {
          lvl_changed := true;
        }
        return;
      }
      running[current_lvl] := running[current_lvl][1..];
      running[level] := [task] + running[level];
      tasks := tasks[task := tasks[task].(level := level)];
      if level >= current_lvl {
        current_lvl := level;
      } else {
        current_lvl := level;
        lvl_changed := true;
      }
    }

    /** TaskManager::SendMsg; false when there is no such task. */
    method SendMsg(task: TaskID, msg: Waiting.Message) returns (ok: bool)
      requires Valid() && task != IDLE
      modifies this`current_lvl, this`lvl_changed, this`tasks, this`msgs, running
      ensures Valid() && ok == (task in old(tasks))
      ensures if ok then Queues() == Wakeup(old(Queues()), task, -1) && msgs == old(msgs)[task := old(msgs)[task] + [msg]]
              else Queues() == old(Queues()) && msgs == old(msgs)
    {
      hide Placed, Quiet, NoDup;
      if task !in tasks {
        return false;
      }
      WakeupInv(Queues(), task, -1);
      msgs := msgs[task := msgs[task] + [msg]];
      WakeupTask(task, -1);
      ok := true;
    }

    /** TaskManager::Finish, up to the switch to the next task. */
    method Finish(exit_code: int)
      requires Valid() && Front(Queues()) != IDLE
      requires forall c <- waiter_tasks :: waiter_tasks[c] in tasks && waiter_tasks[c] != IDLE && waiter_tasks[c] != Front(Queues())
      modifies this, running
      ensures Valid()
      ensures var k := Waiting.FinishStep(old(View()), exit_code);
        Queues() == k.sched && msgs == k.msgs && finished_tasks == k.finished && waiter_tasks == k.waiters && !k.fault
    {
      hide Placed, Quiet, NoDup;
      ExitInv(Queues());
      var cur_task := RotateCurrentRunningQueue(true);
      tasks := tasks - {cur_task};
      msgs := msgs - {cur_task};
      finished_tasks := finished_tasks[cur_task := exit_code];
      if cur_task in waiter_tasks {
        var waiter := waiter_tasks[cur_task];
        waiter_tasks := waiter_tasks - {cur_task};
        WakeupInv(Queues(), waiter, -1);
        WakeupTask(waiter, -1);
      }
    }

    /** One turn of WaitFinish's loop: the child's code, or the caller is registered and asleep. */
    method TryFinish(task_id: TaskID) returns (done: bool, exit_code: int)
      requires Valid() && Front(Queues()) != IDLE && Front(Queues()) in tasks
      modifies this, running
      ensures Valid() && done == (task_id in old(finished_tasks)) && (done ==> exit_code == old(finished_tasks)[task_id])
      ensures var k := Waiting.WaitStep(old(View()), task_id);
        Queues() == k.sched && finished_tasks == k.finished && waiter_tasks == k.waiters
    {
      hide Placed, Quiet, NoDup;
      var cur_task := running[current_lvl][0];
      if task_id in finished_tasks {
        exit_code := finished_tasks[task_id];
        finished_tasks := finished_tasks - {task_id};
        return true, exit_code;
      }
      waiter_tasks := waiter_tasks[task_id := cur_task];
      SleepInv(Queues(), cur_task);
      SleepTask(cur_task);
      return false, 0;
    }
  }
}
