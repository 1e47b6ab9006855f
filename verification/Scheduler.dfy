/** The run queues of the task manager: four levels, of which the highest that is not empty runs. */
module Scheduler {
  type TaskID = nat

  const TASK_MAX_LEVEL := 3
  const MAIN: TaskID := 1
  const IDLE: TaskID := 2

  datatype Task = Task(level: nat, running: bool)

  datatype Sched = Sched(queues: seq<seq<TaskID>>, current: nat, changed: bool, tasks: map<TaskID, Task>)

  predicate NoDup(q: seq<TaskID>) {
    forall i, j :: 0 <= i < j < |q| ==> q[i] != q[j]
  }

  /** A live task is marked running exactly when it stands once, in the queue of its own level. */
  ghost predicate Placed(q: seq<TaskID>, tasks: map<TaskID, Task>, l: nat) {
    NoDup(q)
    && forall t: TaskID {:trigger t in q} {:trigger t in tasks} :: t in q <==> t in tasks && tasks[t].running && tasks[t].level == l
  }

  /** The queue that runs is not empty, and a busy queue above it has been noticed. */
  ghost predicate Sane(s: Sched) {
    && |s.queues| == 4 && s.current < 4 && (forall t <- s.tasks :: s.tasks[t].level < 4)
    && (forall l {:trigger s.queues[l]} :: 0 <= l < 4 ==> Placed(s.queues[l], s.tasks, l))
    && s.queues[s.current] != []
    && (!s.changed ==> Quiet(s.queues, s.current))
  }

  /** Besides, the idle task is ready, so that there is always a task to run. */
  ghost predicate Inv(s: Sched) {
    Sane(s) && IDLE in s.queues[0]
  }

  /** A task other than `t` is ready. */
  ghost predicate OtherReady(s: Sched, t: TaskID) {
    exists u <- s.tasks :: u != t && s.tasks[u].running
  }

  predicate Quiet(qs: seq<seq<TaskID>>, l: nat)
    requires |qs| == 4
  {
    forall m :: l < m < 4 ==> qs[m] == []
  }

  /** The highest level at or below `l` with a task, or level 0. */
  function HighestFrom(qs: seq<seq<TaskID>>, l: nat): (r: nat)
    requires |qs| == 4 && l < 4
    ensures r <= l && (forall m :: r < m <= l ==> qs[m] == []) && (r > 0 ==> qs[r] != [])
  {
    if l > 0 && qs[l] == [] then HighestFrom(qs, l - 1) else l
  }

  function Front(s: Sched): TaskID
    requires s.current < |s.queues| && s.queues[s.current] != []
  {
    s.queues[s.current][0]
  }

  /** std::remove of one task. */
  function Remove(q: seq<TaskID>, t: TaskID): seq<TaskID> {
    if q == [] then [] else if q[0] == t then Remove(q[1..], t) else [q[0]] + Remove(q[1..], t)
  }

  lemma {:induction false} RemoveFacts(q: seq<TaskID>, t: TaskID)
    requires NoDup(q)
    ensures t !in q ==> Remove(q, t) == q
    ensures NoDup(Remove(q, t)) && forall u: TaskID :: u in Remove(q, t) <==> u in q && u != t
  {
    if q != [] {
      RemoveFacts(q[1..], t);
      Popped(q);
      Pushed(Remove(q[1..], t), q[0]);
    }
  }

  /** RotateCurrentRunningQueue. */
  function Rotate(s: Sched, sleeping: bool): Sched
    requires |s.queues| == 4 && s.current < 4 && s.queues[s.current] != []
  {
    var q := s.queues[s.current][1..] + (if sleeping then [] else [Front(s)]);
    var qs := s.queues[s.current := q];
    if q == [] || s.changed then s.(queues := qs, changed := false, current := HighestFrom(qs, TASK_MAX_LEVEL))
    else s.(queues := qs)
  }

  function SetRunning(s: Sched, t: TaskID, running: bool): Sched
    requires t in s.tasks
  {
    s.(tasks := s.tasks[t := s.tasks[t].(running := running)])
  }

  function SetLevel(s: Sched, t: TaskID, level: nat): Sched
    requires t in s.tasks
  {
    s.(tasks := s.tasks[t := s.tasks[t].(level := level)])
  }

  /** TaskManager::Sleep. */
  function Sleep(s: Sched, t: TaskID): Sched
    requires Sane(s) && t in s.tasks
  {
    if !s.tasks[t].running then s
    else
      var r := SetRunning(s, t, false);
      if t == Front(s) then Rotate(r, true)
      else r.(queues := r.queues[s.tasks[t].level := Remove(r.queues[s.tasks[t].level], t)])
  }

  /** ChangeRunningLevel; a negative level leaves it as it is. */
  function ChangeLevel(s: Sched, t: TaskID, level: int): Sched
    requires Sane(s) && t in s.tasks && level < 4
  {
    var was := s.tasks[t].level;
    if level < 0 || was == level then s
    else if t != Front(s) then
      var r := SetLevel(s, t, level);
      var qs := r.queues[was := Remove(r.queues[was], t)];
      r.(queues := qs[level := qs[level] + [t]], changed := r.changed || level > s.current)
    else
      var r := SetLevel(s, t, level);
      var qs := r.queues[s.current := r.queues[s.current][1..]];
      r.(queues := qs[level := [t] + qs[level]], current := level, changed := r.changed || level < s.current)
  }

  /** TaskManager::Wakeup. */
  function Wakeup(s: Sched, t: TaskID, level: int): Sched
    requires Sane(s) && t in s.tasks && level < 4
  {
    if s.tasks[t].running then ChangeLevel(s, t, level)
    else
      var l := if level < 0 then s.tasks[t].level else level;
      var r := SetRunning(SetLevel(s, t, l), t, true);
      r.(queues := r.queues[l := r.queues[l] + [t]], changed := r.changed || l > s.current)
  }

  /** NewTask: a task that is not running yet. */
  function NewTask(s: Sched, t: TaskID): Sched
    requires t !in s.tasks
  {
    s.(tasks := s.tasks[t := Task(1, false)])
  }

  /** The end of the task that runs. */
  function Exit(s: Sched): Sched
    requires Sane(s)
  {
    var r := Rotate(s, true);
    r.(tasks := s.tasks - {Front(s)})
  }

  function Init(): Sched {
    Sched([[IDLE], [], [], [MAIN]], TASK_MAX_LEVEL, false, map[MAIN := Task(3, true), IDLE := Task(0, true)])
  }

  lemma InitInv()
    ensures Inv(Init()) && !Init().changed
  {
  }

  /** A queue stays right when one task changes, and enters or leaves it accordingly. */
  lemma Replaced(q: seq<TaskID>, q': seq<TaskID>, tasks: map<TaskID, Task>, t: TaskID, task: Task, l: nat)
    requires Placed(q, tasks, l) && NoDup(q')
    requires forall u: TaskID {:trigger u in q'} {:trigger u in q} :: u != t ==> (u in q' <==> u in q)
    requires t in q' <==> task.running && task.level == l
    ensures Placed(q', tasks[t := task], l)
  {
  }

  lemma Popped(q: seq<TaskID>)
    requires NoDup(q) && q != []
    ensures NoDup(q[1..]) && NoDup(q[1..] + [q[0]]) && q[0] !in q[1..]
    ensures forall u: TaskID {:trigger u in q[1..]} :: u in q[1..] <==> u in q && u != q[0]
    ensures forall u: TaskID {:trigger u in q[1..] + [q[0]]} :: u in q[1..] + [q[0]] <==> u in q
  {
    assert q == [q[0]] + q[1..];
    assert forall i :: 0 <= i < |q[1..]| ==> q[1..][i] == q[i + 1] != q[0];
  }

  lemma Pushed(q: seq<TaskID>, t: TaskID)
    requires NoDup(q) && t !in q
    ensures NoDup(q + [t]) && NoDup([t] + q)
    ensures forall u: TaskID {:trigger u in q + [t]} :: u in q + [t] <==> u in q || u == t
    ensures forall u: TaskID {:trigger u in [t] + q} :: u in [t] + q <==> u in q || u == t
  {
  }

  /** The timer interrupt: afterwards the task that runs is on the highest level that is busy. */
  lemma SwitchSane(s: Sched)
    requires Sane(s)
    ensures Sane(Rotate(s, false)) && !Rotate(s, false).changed && Quiet(Rotate(s, false).queues, Rotate(s, false).current)
  {
    hide NoDup;
    Popped(s.queues[s.current]);
  }

  lemma SwitchInv(s: Sched)
    requires Inv(s)
    ensures Inv(Rotate(s, false)) && !Rotate(s, false).changed && Quiet(Rotate(s, false).queues, Rotate(s, false).current)
  {
    hide NoDup;
    SwitchSane(s);
    Popped(s.queues[s.current]);
  }

  /** The queues after a task has left its own. */
  lemma SleepQueues(s: Sched, t: TaskID)
    requires Sane(s) && t in s.tasks && s.tasks[t].running
    ensures var r := Sleep(s, t);
      && |r.queues| == 4 && r.current < 4 && r.tasks == s.tasks[t := s.tasks[t].(running := false)]
      && forall m :: 0 <= m < 4 ==> Placed(r.queues[m], r.tasks, m)
  {
    hide NoDup;
    var l, task := s.tasks[t].level, s.tasks[t].(running := false);
    Popped(s.queues[l]);
    RemoveFacts(s.queues[l], t);
    var r := Sleep(s, t);
    forall m | 0 <= m < 4 ensures Placed(r.queues[m], r.tasks, m) {
      Replaced(s.queues[m], r.queues[m], s.tasks, t, task, m);
    }
  }

  /** A task may be put to sleep, without the queues running dry, exactly if it sleeps already or another one
      is ready. */
  lemma SleepIff(s: Sched, t: TaskID)
    requires Sane(s) && t in s.tasks
    ensures Sane(Sleep(s, t)) <==> !s.tasks[t].running || OtherReady(s, t)
    ensures Sleep(s, t).tasks == s.tasks[t := s.tasks[t].(running := false)]
    ensures Sane(Sleep(s, t)) && s.tasks[t].running && t == Front(s) ==>
      !Sleep(s, t).changed && Quiet(Sleep(s, t).queues, Sleep(s, t).current)
  {
    hide NoDup;
    if s.tasks[t].running {
      SleepQueues(s, t);
      var r := Sleep(s, t);
      var q := r.queues[r.current];
      forall u | u in q ensures u in s.tasks && u != t && s.tasks[u].running { assert Placed(q, r.tasks, r.current); }
      assert q != [] ==> q[0] in q;
      if OtherReady(s, t) {
        var u :| u in s.tasks && u != t && s.tasks[u].running;
        assert u in r.queues[s.tasks[u].level];
        assert t != Front(s) ==> Front(s) in r.queues[s.current];
      }
    }
  }

  lemma SleepInv(s: Sched, t: TaskID)
    requires Inv(s) && t in s.tasks && t != IDLE
    ensures Inv(Sleep(s, t)) && Sleep(s, t).tasks == s.tasks[t := s.tasks[t].(running := false)]
    ensures s.tasks[t].running && t == Front(s) ==> !Sleep(s, t).changed && Quiet(Sleep(s, t).queues, Sleep(s, t).current)
  {
    hide NoDup;
    SleepIff(s, t);
    assert IDLE in s.tasks;
  }

  lemma ChangeLevelSane(s: Sched, t: TaskID, level: int)
    requires Sane(s) && t in s.tasks && level < 4 && s.tasks[t].running
    ensures Sane(ChangeLevel(s, t, level))
    ensures ChangeLevel(s, t, level).tasks == if level < 0 then s.tasks else s.tasks[t := s.tasks[t].(level := level)]
  {
    hide NoDup;
    var l := s.tasks[t].level;
    if level >= 0 && level != l {
      var r := ChangeLevel(s, t, level);
      Popped(s.queues[l]);
      RemoveFacts(s.queues[l], t);
      Pushed(s.queues[level], t);
      forall m | 0 <= m < 4 ensures Placed(r.queues[m], r.tasks, m) {
        Replaced(s.queues[m], r.queues[m], s.tasks, t, s.tasks[t].(level := level), m);
      }
      assert t != Front(s) ==> Front(s) in r.queues[s.current];
    }
  }

  lemma ChangeLevelInv(s: Sched, t: TaskID, level: int)
    requires Inv(s) && t in s.tasks && level < 4 && s.tasks[t].running && t != IDLE
    ensures Inv(ChangeLevel(s, t, level))
    ensures ChangeLevel(s, t, level).tasks == if level < 0 then s.tasks else s.tasks[t := s.tasks[t].(level := level)]
  {
    hide NoDup;
    ChangeLevelSane(s, t, level);
    assert IDLE in s.tasks && s.tasks[IDLE] == Task(0, true);
  }

  /** A task may be woken at any level, or moved to it, even the idle task. */
  lemma WakeupSane(s: Sched, t: TaskID, level: int)
    requires Sane(s) && t in s.tasks && level < 4
    ensures Sane(Wakeup(s, t, level))
    ensures Wakeup(s, t, level).tasks == s.tasks[t := Task(if level < 0 then s.tasks[t].level else level, true)]
  {
    hide NoDup;
    if s.tasks[t].running {
      ChangeLevelSane(s, t, level);
    } else {
      var l := if level < 0 then s.tasks[t].level else level;
      var r := Wakeup(s, t, level);
      Pushed(s.queues[l], t);
      forall m | 0 <= m < 4 ensures Placed(r.queues[m], r.tasks, m) {
        Replaced(s.queues[m], r.queues[m], s.tasks, t, Task(l, true), m);
      }
    }
  }

  lemma WakeupInv(s: Sched, t: TaskID, level: int)
    requires Inv(s) && t in s.tasks && level < 4 && t != IDLE
    ensures Inv(Wakeup(s, t, level))
    ensures Wakeup(s, t, level).tasks == s.tasks[t := Task(if level < 0 then s.tasks[t].level else level, true)]
  {
    hide NoDup;
    WakeupSane(s, t, level);
    assert IDLE in s.tasks && s.tasks[IDLE] == Task(0, true);
  }

  lemma NewTaskSane(s: Sched, t: TaskID)
    requires Sane(s) && t !in s.tasks
    ensures Sane(NewTask(s, t)) && NewTask(s, t).tasks == s.tasks[t := Task(1, false)]
  {
    hide NoDup;
    forall m | 0 <= m < 4 ensures Placed(s.queues[m], s.tasks[t := Task(1, false)], m) {
      Replaced(s.queues[m], s.queues[m], s.tasks, t, Task(1, false), m);
    }
  }

  lemma NewTaskInv(s: Sched, t: TaskID)
    requires Inv(s) && t !in s.tasks
    ensures Inv(NewTask(s, t)) && NewTask(s, t).tasks == s.tasks[t := Task(1, false)]
  {
    hide Placed;
    NewTaskSane(s, t);
  }

  /** The task that runs may end exactly if another one is ready. */
  lemma ExitIff(s: Sched)
    requires Sane(s)
    ensures Sane(Exit(s)) <==> OtherReady(s, Front(s))
    ensures Front(s) in s.tasks && Exit(s).tasks == s.tasks - {Front(s)}
    ensures Sane(Exit(s)) ==> !Exit(s).changed && Quiet(Exit(s).queues, Exit(s).current)
  {
    hide NoDup;
    var t := Front(s);
    assert t in s.queues[s.current];
    SleepIff(s, t);
    SleepQueues(s, t);
    var r := Sleep(s, t);
    assert Exit(s).queues == r.queues && Exit(s).current == r.current && Exit(s).changed == r.changed;
    forall m | 0 <= m < 4 ensures Placed(r.queues[m], s.tasks - {t}, m) { assert Placed(r.queues[m], r.tasks, m); }
  }

  lemma ExitInv(s: Sched)
    requires Inv(s) && Front(s) != IDLE
    ensures Inv(Exit(s)) && Front(s) in s.tasks && Exit(s).tasks == s.tasks - {Front(s)}
    ensures !Exit(s).changed && Quiet(Exit(s).queues, Exit(s).current)
  {
    hide NoDup;
    ExitIff(s);
    assert IDLE in s.tasks;
  }
}
