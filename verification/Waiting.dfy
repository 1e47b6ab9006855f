/** Tasks that wait, for a message or for another task's end, over every interleaving. A section that
    runs with interrupts disabled is one step. */
module Waiting {
  import opened Scheduler
  import Turns

  type Message = nat

  /** Where a task is suspended: nowhere in particular, inside Task::Wait, or inside WaitFinish. */
  datatype Pc = Free | InWait | InWaitFinish(child: TaskID)

  /** `exited` and `returned` are the history: the code each task passed to Finish, and what WaitFinish
      has returned, for which child. `fault` is set where the code would use a pointer to a task that is
      gone, or a message that is not there. */
  datatype Kernel = Kernel(sched: Sched, msgs: map<TaskID, seq<Message>>, pcs: map<TaskID, Pc>, latest: TaskID,
                           finished: map<TaskID, int>, waiters: map<TaskID, TaskID>,
                           exited: map<TaskID, int>, returned: seq<(TaskID, int)>, fault: bool)

  datatype Event =
    | Tick
    | Create
    | Start(task: TaskID, level: int)
    | Send(task: TaskID, msg: Message)
    | Receive
    | BeginWait
    | ResumeWait
    | WaitFinish(child: TaskID)
    | ResumeWaitFinish
    | Finish(code: int)

  function Boot(): Kernel {
    Kernel(Scheduler.Init(), map[MAIN := [], IDLE := []], map[MAIN := Free, IDLE := Free], 2, map[], map[], map[], [], false)
  }

  predicate Known(k: Kernel) {
    k.msgs.Keys == k.sched.tasks.Keys == k.pcs.Keys
  }

  /** One waiter for each child; the idle task only idles; a task that sleeps inside Task::Wait is woken
      by messages alone. */
  ghost predicate Enabled(k: Kernel, e: Event) {
    && Inv(k.sched) && Known(k)
    && var cur := Front(k.sched);
      (e.Receive? || e.BeginWait? || e.ResumeWait? || e.WaitFinish? || e.ResumeWaitFinish? || e.Finish? ==> cur in k.pcs && cur != IDLE)
      && match e
        case Tick => true
        case Create => k.latest + 1 !in k.sched.tasks
        case Start(t, level) => t in k.sched.tasks && t != IDLE && level < 4 && k.pcs[t] != InWait
        case Send(t, m) => t != IDLE
        case Receive => k.pcs[cur] == Free
        case BeginWait => k.pcs[cur] == Free
        case ResumeWait => k.pcs[cur] == InWait
        case WaitFinish(c) => k.pcs[cur] == Free && forall t <- k.pcs :: k.pcs[t] != InWaitFinish(c)
        case ResumeWaitFinish => k.pcs[cur].InWaitFinish?
        case Finish(code) => k.pcs[cur] == Free
  }

  /** The body of WaitFinish's loop, for the task that runs. */
  function WaitStep(k: Kernel, child: TaskID): Kernel
    requires Inv(k.sched) && Front(k.sched) in k.sched.tasks
  {
    var cur := Front(k.sched);
    if child in k.finished then
      k.(finished := k.finished - {child}, returned := k.returned + [(child, k.finished[child])], pcs := k.pcs[cur := Free])
    else
      k.(waiters := k.waiters[child := cur], sched := Sleep(k.sched, cur), pcs := k.pcs[cur := InWaitFinish(child)])
  }

  /** TaskManager::Finish. */
  function FinishStep(k: Kernel, code: int): Kernel
    requires Inv(k.sched) && Front(k.sched) != IDLE
  {
    var cur := Front(k.sched);
    ExitInv(k.sched);
    var r := k.(sched := Exit(k.sched), msgs := k.msgs - {cur}, pcs := k.pcs - {cur},
                finished := k.finished[cur := code], exited := k.exited[cur := code]);
    if cur !in k.waiters then r
    else
      var w := k.waiters[cur];
      if w !in r.sched.tasks then r.(fault := true)
      else r.(waiters := k.waiters - {cur}, sched := Wakeup(r.sched, w, -1))
  }

  function Step(k: Kernel, e: Event): Kernel
    requires Enabled(k, e)
  {
    var cur := Front(k.sched);
    match e
    case Tick => k.(sched := Rotate(k.sched, false))
    case Create =>
      var id := k.latest + 1;
      k.(sched := NewTask(k.sched, id), msgs := k.msgs[id := []], pcs := k.pcs[id := Free], latest := id)
    case Start(t, level) => k.(sched := Wakeup(k.sched, t, level))
    case Send(t, m) =>
      if t !in k.sched.tasks then k
      else k.(msgs := k.msgs[t := k.msgs[t] + [m]], sched := Wakeup(k.sched, t, -1))
    case Receive => if k.msgs[cur] == [] then k else k.(msgs := k.msgs[cur := k.msgs[cur][1..]])
    case BeginWait =>
      if k.msgs[cur] != [] then k.(msgs := k.msgs[cur := k.msgs[cur][1..]])
      else k.(sched := Sleep(k.sched, cur), pcs := k.pcs[cur := InWait])
    case ResumeWait =>
      if k.msgs[cur] == [] then k.(fault := true)
      else k.(msgs := k.msgs[cur := k.msgs[cur][1..]], pcs := k.pcs[cur := Free])
    case WaitFinish(c) => WaitStep(k, c)
    case ResumeWaitFinish => WaitStep(k, k.pcs[cur].child)
    case Finish(code) => FinishStep(k, code)
  }

  /** A task inside Task::Wait sleeps exactly as long as it has no message. */
  ghost predicate Waits(k: Kernel)
    requires Known(k)
  {
    forall t <- k.pcs :: k.pcs[t] == InWait ==> (k.sched.tasks[t].running <==> k.msgs[t] != [])
  }

  /** A task asleep inside WaitFinish is registered with a child that has not ended. */
  ghost predicate Sleepers(k: Kernel)
    requires Known(k)
  {
    forall t <- k.pcs :: k.pcs[t].InWaitFinish? && !k.sched.tasks[t].running ==>
      k.pcs[t].child !in k.finished && k.pcs[t].child in k.waiters && k.waiters[k.pcs[t].child] == t
  }

  /** Every registered waiter is alive and inside WaitFinish for that child, the only one there. */
  ghost predicate Registered(k: Kernel)
    requires Known(k)
  {
    && (forall c <- k.waiters :: k.waiters[c] in k.pcs && k.pcs[k.waiters[c]] == InWaitFinish(c) && c !in k.finished)
    && (forall t <- k.pcs, u <- k.pcs :: k.pcs[t].InWaitFinish? && k.pcs[t] == k.pcs[u] ==> t == u)
  }

  /** Exit codes: each is either still to be fetched or has been returned once. */
  ghost predicate Codes(k: Kernel) {
    && (forall c <- k.finished :: c in k.exited && k.exited[c] == k.finished[c])
    && (forall i {:trigger k.returned[i]} :: 0 <= i < |k.returned| ==>
          k.returned[i].0 in k.exited && k.exited[k.returned[i].0] == k.returned[i].1 && k.returned[i].0 !in k.finished)
    && (forall i, j :: 0 <= i < j < |k.returned| ==> k.returned[i].0 != k.returned[j].0)
    && (forall c <- k.exited :: c in k.finished || exists i :: 0 <= i < |k.returned| && k.returned[i].0 == c)
    && (forall c <- k.exited :: c !in k.sched.tasks && c <= k.latest)
    && (forall t <- k.sched.tasks :: t <= k.latest)
  }

  ghost predicate Safe(k: Kernel) {
    && Inv(k.sched) && Known(k) && Waits(k) && Sleepers(k) && Registered(k) && Codes(k) && !k.fault
    && IDLE in k.pcs && k.pcs[IDLE] == Free
  }

  lemma BootSafe()
    ensures Safe(Boot())
  {
    InitInv();
  }

  lemma FrontRuns(s: Sched)
    requires Inv(s)
    ensures Front(s) in s.tasks && s.tasks[Front(s)].running
  {
    assert Front(s) in s.queues[s.current];
  }

  /** What waits where depends on the queues only through the tasks' running flags. */
  lemma SameFlags(k: Kernel, s: Sched)
    requires Safe(k) && Inv(s) && s.tasks.Keys == k.sched.tasks.Keys
    requires forall t <- s.tasks :: s.tasks[t].running == k.sched.tasks[t].running
    ensures Safe(k.(sched := s))
  {
    hide Inv;
  }

  /** The scheduler `s` differs from the kernel's in that task `t` runs or does not. */
  ghost predicate Marked(k: Kernel, s: Sched, t: TaskID, running: bool) {
    Inv(s) && t in k.sched.tasks && s.tasks.Keys == k.sched.tasks.Keys && s.tasks[t].running == running
    && forall u <- s.tasks :: u != t ==> s.tasks[u].running == k.sched.tasks[u].running
  }

  /** A task goes to sleep inside WaitFinish. */
  lemma Suspended(k: Kernel, s: Sched, t: TaskID, child: TaskID)
    requires Safe(k) && Marked(k, s, t, false) && t in k.pcs && t != IDLE && child !in k.finished
    requires forall u <- k.pcs :: u != t ==> k.pcs[u] != InWaitFinish(child)
    requires k.pcs[t] == Free || k.pcs[t] == InWaitFinish(child)
    ensures Safe(k.(sched := s, waiters := k.waiters[child := t], pcs := k.pcs[t := InWaitFinish(child)]))
  {
    hide Inv, Codes, Waits, Sleepers, Registered;
    var r := k.(sched := s, waiters := k.waiters[child := t], pcs := k.pcs[t := InWaitFinish(child)]);
    CodesKept(k, r);
    SuspendedWaits(k, r, s, t);
    SuspendedSleepers(k, r, s, t, child);
    SuspendedRegistered(k, r, t, child);
  }

  lemma SuspendedWaits(k: Kernel, r: Kernel, s: Sched, t: TaskID)
    requires Known(k) && Known(r) && Waits(k) && Marked(k, s, t, false) && r.sched == s && r.msgs == k.msgs
    requires r.pcs[t].InWaitFinish? && r.pcs == k.pcs[t := r.pcs[t]]
    ensures Waits(r)
  {
    hide Inv;
  }

  lemma SuspendedSleepers(k: Kernel, r: Kernel, s: Sched, t: TaskID, child: TaskID)
    requires Known(k) && Known(r) && Sleepers(k) && Marked(k, s, t, false) && child !in k.finished
    requires forall u <- k.pcs :: u != t ==> k.pcs[u] != InWaitFinish(child)
    requires r.sched == s && r.waiters == k.waiters[child := t] && r.pcs == k.pcs[t := InWaitFinish(child)]
    requires r.finished == k.finished
    ensures Sleepers(r)
  {
    hide Inv;
  }

  lemma SuspendedRegistered(k: Kernel, r: Kernel, t: TaskID, child: TaskID)
    requires Known(k) && Known(r) && Registered(k) && child !in k.finished && t in k.pcs
    requires forall u <- k.pcs :: u != t ==> k.pcs[u] != InWaitFinish(child)
    requires k.pcs[t] == Free || k.pcs[t] == InWaitFinish(child)
    requires r.waiters == k.waiters[child := t] && r.pcs == k.pcs[t := InWaitFinish(child)] && r.finished == k.finished
    ensures Registered(r)
  {
  }

  /** The code of an ended child is returned. */
  lemma Fetched(k: Kernel, t: TaskID, child: TaskID)
    requires Safe(k) && t in k.pcs && child in k.finished && (k.pcs[t] == Free || k.pcs[t] == InWaitFinish(child))
    ensures Safe(k.(finished := k.finished - {child}, returned := k.returned + [(child, k.finished[child])], pcs := k.pcs[t := Free]))
  {
    hide Inv, Codes;
    CodeFetched(k, t, child);
  }

  lemma CodeFetched(k: Kernel, t: TaskID, child: TaskID)
    requires Codes(k) && child in k.finished
    ensures Codes(k.(finished := k.finished - {child}, returned := k.returned + [(child, k.finished[child])], pcs := k.pcs[t := Free]))
  {
    var r := k.(finished := k.finished - {child}, returned := k.returned + [(child, k.finished[child])], pcs := k.pcs[t := Free]);
    assert r.returned[|k.returned|] == (child, k.finished[child]);
    forall c <- r.exited ensures c in r.finished || exists i :: 0 <= i < |r.returned| && r.returned[i].0 == c {
      if c !in k.finished {
        var i :| 0 <= i < |k.returned| && k.returned[i].0 == c;
        assert r.returned[i].0 == c;
      }
    }
  }

  lemma WaitStepSafe(k: Kernel, child: TaskID)
    requires Safe(k) && Front(k.sched) in k.pcs && Front(k.sched) != IDLE
    requires forall t <- k.pcs :: t != Front(k.sched) ==> k.pcs[t] != InWaitFinish(child)
    requires k.pcs[Front(k.sched)] == Free || k.pcs[Front(k.sched)] == InWaitFinish(child)
    ensures Safe(WaitStep(k, child))
  {
    hide Placed, Quiet, Sleep, Waits, Sleepers, Registered, Codes;
    FrontRuns(k.sched);
    var t := Front(k.sched);
    if child in k.finished {
      Fetched(k, t, child);
    } else {
      SleepInv(k.sched, t);
      Suspended(k, Sleep(k.sched, t), t, child);
    }
  }

  /** A task is gone. */
  ghost predicate Gone(k: Kernel, s: Sched, t: TaskID) {
    Inv(s) && t in k.sched.tasks && s.tasks == k.sched.tasks - {t}
  }

  /** It ends with a code that nobody waits for yet. */
  lemma Ended(k: Kernel, s: Sched, t: TaskID, code: int)
    requires Safe(k) && Gone(k, s, t) && t in k.pcs && t != IDLE && k.pcs[t] == Free && t !in k.waiters
    ensures Safe(k.(sched := s, msgs := k.msgs - {t}, pcs := k.pcs - {t}, finished := k.finished[t := code], exited := k.exited[t := code]))
  {
    hide Inv, Codes;
    CodeEnded(k, s, t, code, k.waiters);
  }

  lemma CodesKept(k: Kernel, r: Kernel)
    requires Codes(k) && r.finished == k.finished && r.exited == k.exited && r.returned == k.returned
    requires r.latest == k.latest && r.sched.tasks.Keys == k.sched.tasks.Keys
    ensures Codes(r)
  {
  }

  /** The end of a task and the release of its waiter come to the same in either order. */
  lemma FinishSafe(k: Kernel, code: int)
    requires Safe(k) && Front(k.sched) in k.pcs && Front(k.sched) != IDLE && k.pcs[Front(k.sched)] == Free
    ensures Safe(FinishStep(k, code))
  {
    hide Placed, Quiet, Exit, Wakeup, Waits, Codes;
    var cur := Front(k.sched);
    FrontRuns(k.sched);
    ExitInv(k.sched);
    if cur in k.waiters {
      var w := k.waiters[cur];
      assert w in k.pcs && w != cur && w != IDLE;
      WakeupInv(Exit(k.sched), w, -1);
      EndedReleased(k, Wakeup(Exit(k.sched), w, -1), cur, w, code);
    } else {
      Ended(k, Exit(k.sched), cur, code);
    }
  }

  lemma EndedReleased(k: Kernel, s: Sched, t: TaskID, w: TaskID, code: int)
    requires Safe(k) && Inv(s) && t in k.pcs && t != IDLE && k.pcs[t] == Free && t in k.waiters && k.waiters[t] == w && w != t
    requires s.tasks.Keys == k.sched.tasks.Keys - {t} && w in s.tasks && s.tasks[w].running
    requires forall u <- s.tasks :: u != w ==> s.tasks[u].running == k.sched.tasks[u].running
    ensures Safe(k.(sched := s, msgs := k.msgs - {t}, pcs := k.pcs - {t}, finished := k.finished[t := code],
                    exited := k.exited[t := code], waiters := k.waiters - {t}))
  {
    hide Inv, Codes;
    CodeEnded(k, s, t, code, k.waiters - {t});
  }

  lemma CodeEnded(k: Kernel, s: Sched, t: TaskID, code: int, ws: map<TaskID, TaskID>)
    requires Codes(k) && t in k.sched.tasks && s.tasks.Keys == k.sched.tasks.Keys - {t}
    ensures Codes(k.(sched := s, msgs := k.msgs - {t}, pcs := k.pcs - {t}, finished := k.finished[t := code],
                     exited := k.exited[t := code], waiters := ws))
  {
    assert forall i :: 0 <= i < |k.returned| ==> k.returned[i].0 != t;
  }

  lemma SendSafe(k: Kernel, t: TaskID, m: Message)
    requires Safe(k) && t in k.pcs && t != IDLE
    ensures Safe(k.(msgs := k.msgs[t := k.msgs[t] + [m]], sched := Wakeup(k.sched, t, -1)))
  {
    hide Placed, Quiet, Wakeup, Codes, Waits, Sleepers, Registered;
    WakeupInv(k.sched, t, -1);
    Notified(k, Wakeup(k.sched, t, -1), t, k.msgs[t] + [m]);
  }

  lemma Notified(k: Kernel, s: Sched, t: TaskID, ms: seq<Message>)
    requires Safe(k) && Marked(k, s, t, true) && t in k.pcs && (k.pcs[t] == InWait ==> ms != [])
    ensures Safe(k.(msgs := k.msgs[t := ms], sched := s))
  {
    hide Inv, Codes;
    CodesKept(k, k.(msgs := k.msgs[t := ms], sched := s));
  }

  lemma StartSafe(k: Kernel, t: TaskID, level: int)
    requires Safe(k) && t in k.pcs && t != IDLE && level < 4 && k.pcs[t] != InWait
    ensures Safe(k.(sched := Wakeup(k.sched, t, level)))
  {
    hide Placed, Quiet, Wakeup, Codes, Waits, Sleepers, Registered;
    WakeupInv(k.sched, t, level);
    Notified(k, Wakeup(k.sched, t, level), t, k.msgs[t]);
    assert k.msgs[t := k.msgs[t]] == k.msgs;
  }

  lemma ReceiveSafe(k: Kernel, t: TaskID)
    requires Safe(k) && t in k.pcs && k.msgs[t] != [] && !k.pcs[t].InWaitFinish?
    ensures Safe(k.(msgs := k.msgs[t := k.msgs[t][1..]], pcs := k.pcs[t := Free]))
  {
    hide Inv;
  }

  lemma BeginWaitSafe(k: Kernel, t: TaskID)
    requires Safe(k) && t in k.pcs && k.msgs[t] == [] && k.pcs[t] == Free && t != IDLE
    ensures Safe(k.(sched := Sleep(k.sched, t), pcs := k.pcs[t := InWait]))
  {
    hide Placed, Quiet, Sleep, Codes, Waits, Sleepers, Registered;
    SleepInv(k.sched, t);
    Asleep(k, Sleep(k.sched, t), t);
  }

  lemma Asleep(k: Kernel, s: Sched, t: TaskID)
    requires Safe(k) && Marked(k, s, t, false) && t in k.pcs && k.msgs[t] == [] && k.pcs[t] == Free && t != IDLE
    ensures Safe(k.(sched := s, pcs := k.pcs[t := InWait]))
  {
    hide Inv, Codes;
    CodesKept(k, k.(sched := s, pcs := k.pcs[t := InWait]));
  }

  lemma CreateSafe(k: Kernel)
    requires Safe(k)
    ensures k.latest + 1 !in k.sched.tasks && Safe(Step(k, Create))
  {
    hide Placed, Quiet, NewTask, Waits, Sleepers, Registered;
    NewTaskInv(k.sched, k.latest + 1);
    Created(k, NewTask(k.sched, k.latest + 1));
  }

  lemma Created(k: Kernel, s: Sched)
    requires Safe(k) && Inv(s) && k.latest + 1 !in k.sched.tasks && s.tasks == k.sched.tasks[k.latest + 1 := Task(1, false)]
    ensures var t := k.latest + 1; Safe(k.(sched := s, msgs := k.msgs[t := []], pcs := k.pcs[t := Free], latest := t))
  {
    hide Inv, Waits, Sleepers, Registered, Codes;
    var t := k.latest + 1;
    var k' := k.(sched := s, msgs := k.msgs[t := []], pcs := k.pcs[t := Free], latest := t);
    CreatedWaits(k, k');
    CreatedCodes(k, k');
  }

  /** `k'` is `k` with one more task, which is not waiting. */
  ghost predicate OneMore(k: Kernel, k': Kernel) {
    var t := k.latest + 1;
    && t !in k.sched.tasks && k' == k.(sched := k'.sched, msgs := k.msgs[t := []], pcs := k.pcs[t := Free], latest := t)
    && k'.sched.tasks == k.sched.tasks[t := Task(1, false)]
  }

  lemma CreatedWaits(k: Kernel, k': Kernel)
    requires Known(k) && Known(k') && OneMore(k, k') && Waits(k) && Sleepers(k)
    ensures Waits(k') && Sleepers(k')
  {
  }

  lemma CreatedCodes(k: Kernel, k': Kernel)
    requires Known(k) && Known(k') && OneMore(k, k') && Registered(k) && Codes(k)
    ensures Registered(k') && Codes(k')
  {
  }

  /** No step loses a wakeup or an exit code, or uses what is not there. */
  lemma StepSafe(k: Kernel, e: Event)
    requires Safe(k) && Enabled(k, e)
    ensures Safe(Step(k, e))
  {
    hide Inv, Waits, Sleepers, Registered, Codes, Rotate, Sleep, Wakeup, FinishStep, WaitStep;
    var cur := RunningTask(k);
    match e
    case Tick => SwitchInv(k.sched); SameTasks(k.sched); SameFlags(k, Rotate(k.sched, false));
    case Create => CreateSafe(k);
    case Start(t, level) => StartSafe(k, t, level);
    case Send(t, m) => if t in k.sched.tasks { SendSafe(k, t, m); }
    case Receive => if k.msgs[cur] != [] { Unchanged(k, cur); ReceiveSafe(k, cur); }
    case BeginWait => if k.msgs[cur] == [] { BeginWaitSafe(k, cur); } else { Unchanged(k, cur); ReceiveSafe(k, cur); }
    case ResumeWait => WaitsHasMessage(k, cur); ReceiveSafe(k, cur);
    case WaitFinish(c) => WaitStepSafe(k, c);
    case ResumeWaitFinish => OneWaiter(k, cur); WaitStepSafe(k, k.pcs[cur].child);
    case Finish(code) => FinishSafe(k, code);
  }

  lemma RunningTask(k: Kernel) returns (cur: TaskID)
    requires Inv(k.sched)
    ensures |k.sched.queues| == 4 && k.sched.current < 4 && k.sched.queues[k.sched.current] != []
    ensures cur == Front(k.sched) && cur in k.sched.tasks && k.sched.tasks[cur].running
  {
    FrontRuns(k.sched);
    cur := Front(k.sched);
  }

  lemma SameTasks(s: Sched)
    requires Inv(s)
    ensures Rotate(s, false).tasks == s.tasks
  {
  }

  lemma Unchanged(k: Kernel, t: TaskID)
    requires t in k.pcs && k.pcs[t] == Free
    ensures k.pcs[t := Free] == k.pcs
  {
  }

  lemma WaitsHasMessage(k: Kernel, t: TaskID)
    requires Safe(k) && t in k.pcs && k.pcs[t] == InWait && k.sched.tasks[t].running
    ensures k.msgs[t] != []
  {
  }

  lemma OneWaiter(k: Kernel, t: TaskID)
    requires Safe(k) && t in k.pcs && k.pcs[t].InWaitFinish?
    ensures forall u <- k.pcs :: u != t ==> k.pcs[u] != InWaitFinish(k.pcs[t].child)
  {
  }

  ghost predicate RunOk(k: Kernel, es: seq<Event>)
    decreases |es|
  {
    es == [] || (Enabled(k, es[0]) && RunOk(Step(k, es[0]), es[1..]))
  }

  ghost function Run(k: Kernel, es: seq<Event>): Kernel
    requires RunOk(k, es)
    decreases |es|
  {
    if es == [] then k else Run(Step(k, es[0]), es[1..])
  }

  lemma {:induction false} RunSafe(k: Kernel, es: seq<Event>)
    requires Safe(k) && RunOk(k, es)
    ensures Safe(Run(k, es))
    decreases |es|
  {
    hide Safe, Step, Enabled;
    if es != [] {
      StepSafe(k, es[0]);
      RunSafe(Step(k, es[0]), es[1..]);
    }
  }

  /** Over every run: each value that WaitFinish returned is the one that child passed to Finish, no
      child's value was returned twice, none is lost, and no task sleeps on an event that has happened. */
  lemma ExitCodesOnce(es: seq<Event>)
    requires RunOk(Boot(), es)
    ensures var k := Run(Boot(), es);
      && !k.fault && Safe(k)
      && (forall i :: 0 <= i < |k.returned| ==> k.returned[i].0 in k.exited && k.exited[k.returned[i].0] == k.returned[i].1)
      && (forall i, j :: 0 <= i < j < |k.returned| ==> k.returned[i].0 != k.returned[j].0)
      && (forall c <- k.exited :: c in k.finished || exists i :: 0 <= i < |k.returned| && k.returned[i].0 == c)
      && (forall t <- k.pcs :: t in k.sched.tasks && (!k.sched.tasks[t].running ==>
            match k.pcs[t]
            case Free => true
            case InWait => t in k.msgs && k.msgs[t] == []
            case InWaitFinish(c) => c !in k.exited || exists i :: 0 <= i < |k.returned| && k.returned[i].0 == c))
  {
    hide RunOk, Run, Inv;
    BootSafe();
    RunSafe(Boot(), es);
  }

  /** A waiter whose child has ended gets the child's code as soon as it runs. */
  lemma WaiterReturns(k: Kernel)
    requires Safe(k) && Enabled(k, ResumeWaitFinish)
    requires k.pcs[Front(k.sched)].child in k.finished
    ensures var child, r := k.pcs[Front(k.sched)].child, Step(k, ResumeWaitFinish);
      r.returned == k.returned + [(child, k.exited[child])] && r.pcs[Front(k.sched)] == Free
  {
    hide Inv;
  }

  /** What the step means to the scheduler: who sleeps, wakes, appears and ends. */
  ghost function Actions(k: Kernel, e: Event): seq<Turns.Action>
    requires Enabled(k, e)
  {
    var cur := Front(k.sched);
    match e
    case Tick => [Turns.Tick]
    case Create => [Turns.Spawn(k.latest + 1)]
    case Start(t, level) => [Turns.Wake(t, level)]
    case Send(t, _) => if t in k.sched.tasks then [Turns.Wake(t, -1)] else []
    case Receive => []
    case BeginWait => if Box(k, cur) == [] then [Turns.Block(cur)] else []
    case ResumeWait => []
    case WaitFinish(c) => if c in k.finished then [] else [Turns.Block(cur)]
    case ResumeWaitFinish => if k.pcs[cur].child in k.finished then [] else [Turns.Block(cur)]
    case Finish(_) => [Turns.End] + if cur in k.waiters then [Turns.Wake(k.waiters[cur], -1)] else []
  }

  /** Tasks that wait run on the scheduler, and on nothing else: a wait without a message, or for a child that
      has not ended, puts the task to sleep, a message wakes it, and the end of a child its waiter. */
  lemma StepIsTurns(k: Kernel, e: Event)
    requires Safe(k) && Enabled(k, e)
    ensures Turns.AllowedRun(k.sched, Actions(k, e)) && Step(k, e).sched == Turns.RunOf(k.sched, Actions(k, e))
  {
    hide Placed, Quiet, NoDup, Waits, Sleepers, Registered, Codes, Rotate, Sleep, Wakeup, NewTask, Exit;
    var cur := RunningTask(k);
    IdleReady(k.sched);
    if e.Finish? {
      ExitInv(k.sched);
      IdleReady(Exit(k.sched));
      WaiterThere(k, cur);
    }
    var actions := Actions(k, e);
    if |actions| == 1 {
      OneAction(k.sched, actions);
    } else if |actions| == 2 {
      TwoActions(k.sched, actions);
    }
  }

  lemma IdleReady(s: Sched)
    requires Inv(s)
    ensures Sane(s) && IDLE in s.tasks && s.tasks[IDLE].running && forall t :: t != IDLE ==> OtherReady(s, t)
  {
  }

  lemma OneAction(s: Sched, actions: seq<Turns.Action>)
    requires |actions| == 1 && Turns.Allowed(s, actions[0])
    ensures Turns.AllowedRun(s, actions) && Turns.RunOf(s, actions) == Turns.Apply(s, actions[0])
  {
    hide Turns.Allowed, Turns.Apply;
    assert actions[1..] == [];
    var r := Turns.Apply(s, actions[0]);
    assert Turns.AllowedRun(r, []) && Turns.RunOf(r, []) == r;
  }

  lemma TwoActions(s: Sched, actions: seq<Turns.Action>)
    requires |actions| == 2 && Turns.Allowed(s, actions[0]) && Turns.Allowed(Turns.Apply(s, actions[0]), actions[1])
    ensures Turns.AllowedRun(s, actions)
    ensures Turns.RunOf(s, actions) == Turns.Apply(Turns.Apply(s, actions[0]), actions[1])
  {
    hide Turns.Allowed, Turns.Apply;
    var r := Turns.Apply(s, actions[0]);
    OneAction(r, actions[1..]);
    assert Turns.AllowedRun(r, actions[1..]);
  }

  /** The child whose end the running task asks about in this step, if any. */
  function Asked(k: Kernel, e: Event): set<TaskID>
    requires |k.sched.queues| == 4 && k.sched.current < 4 && k.sched.queues[k.sched.current] != []
  {
    var cur := Front(k.sched);
    if e.WaitFinish? then {e.child}
    else if e.ResumeWaitFinish? && cur in k.pcs && k.pcs[cur].InWaitFinish? then {k.pcs[cur].child}
    else {}
  }

  /** The books of a step. Only the running task changes its place: it is inside Task::Wait after a wait without
      a message, inside WaitFinish, as the child's waiter, after asking for one that has not ended, and in no
      such place when it has got what it asked for. An end leaves a code, and takes the waiter off the books. */
  lemma Books(k: Kernel, e: Event)
    requires Safe(k) && Enabled(k, e)
    ensures var cur, r := Front(k.sched), Step(k, e);
      && (forall t <- k.pcs :: t != cur ==> t in r.pcs && r.pcs[t] == k.pcs[t])
      && (forall t <- r.pcs :: t in k.pcs || (e.Create? && t == k.latest + 1 && r.pcs[t] == Free && Box(r, t) == []))
      && (cur in r.pcs <==> !e.Finish?) && r.latest == k.latest + (if e.Create? then 1 else 0)
      && (e.Create? ==> k.latest + 1 in r.pcs)
      && (e.BeginWait? ==> r.pcs[cur] == if Box(k, cur) == [] then InWait else Free)
      && (e.ResumeWait? ==> r.pcs[cur] == Free)
  {
    hide Inv, Waits, Sleepers, Registered, Codes, Rotate, Sleep, Wakeup, NewTask, Exit;
    var cur := RunningTask(k);
    if e.Finish? { FinishBooks(k, e.code); }
    if e.ResumeWait? { WaitsHasMessage(k, cur); }
  }

  lemma CodeBooks(k: Kernel, e: Event)
    requires Safe(k) && Enabled(k, e)
    ensures var cur, r := Front(k.sched), Step(k, e);
      && (e.Finish? ==> r.finished == k.finished[cur := e.code] && r.exited == k.exited[cur := e.code]
                        && r.waiters == k.waiters - {cur} && r.returned == k.returned)
      && (!e.Finish? ==> r.exited == k.exited)
      && (!e.Finish? && Asked(k, e) == {} ==>
            r.finished == k.finished && r.waiters == k.waiters && r.returned == k.returned)
      && forall c <- Asked(k, e) :: cur in r.pcs
           && if c in k.finished
              then r.pcs[cur] == Free && r.finished == k.finished - {c} && c in k.exited && r.waiters == k.waiters
                   && r.returned == k.returned + [(c, k.exited[c])]
              else r.pcs[cur] == InWaitFinish(c) && r.waiters == k.waiters[c := cur] && r.finished == k.finished
                   && r.returned == k.returned
  {
    hide Inv, Waits, Sleepers, Registered, Rotate, Sleep, Wakeup, NewTask, Exit;
    var cur := RunningTask(k);
    if e.Finish? { FinishBooks(k, e.code); }
  }

  /** An end that nobody waits for takes nobody off the books. */
  lemma FinishBooks(k: Kernel, code: int)
    requires Safe(k) && Enabled(k, Finish(code))
    ensures var cur, r := Front(k.sched), FinishStep(k, code);
      && r.waiters == k.waiters - {cur} && r.finished == k.finished[cur := code] && r.exited == k.exited[cur := code]
      && r.returned == k.returned && r.latest == k.latest && r.pcs == k.pcs - {cur}
  {
    hide Inv, Waits, Sleepers, Wakeup, Exit, Codes;
    var cur := RunningTask(k);
    ExitInv(k.sched);
    WaiterThere(k, cur);
    if cur !in k.waiters { assert k.waiters - {cur} == k.waiters; }
  }

  lemma WaiterThere(k: Kernel, c: TaskID)
    requires Safe(k) && k.sched.queues[k.sched.current] != [] && c == Front(k.sched) && c in k.pcs && k.pcs[c] == Free
    ensures c in k.waiters ==> k.waiters[c] in k.sched.tasks && k.waiters[c] != c
  {
  }

  function Box(k: Kernel, t: TaskID): seq<Message> { if t in k.msgs then k.msgs[t] else [] }

  /** The message that a step hands to task `t`, if any. */
  ghost function Handed(k: Kernel, e: Event, t: TaskID): seq<Message>
    requires Enabled(k, e)
  {
    if t == Front(k.sched) && (e.Receive? || e.BeginWait? || e.ResumeWait?) && k.msgs[t] != [] then [k.msgs[t][0]] else []
  }

  /** The messages sent to a task while it is there. */
  ghost function Sent(k: Kernel, es: seq<Event>, t: TaskID): seq<Message>
    requires RunOk(k, es)
    decreases |es|
  {
    if es == [] then []
    else (if es[0].Send? && es[0].task == t && t in k.sched.tasks then [es[0].msg] else []) + Sent(Step(k, es[0]), es[1..], t)
  }

  /** The messages it has been handed. */
  ghost function Got(k: Kernel, es: seq<Event>, t: TaskID): seq<Message>
    requires RunOk(k, es)
    decreases |es|
  {
    if es == [] then [] else Handed(k, es[0], t) + Got(Step(k, es[0]), es[1..], t)
  }

  /** A message is added at the end and taken at the front; a task that has ended has no box. */
  lemma StepDelivers(k: Kernel, e: Event, t: TaskID)
    requires Safe(k) && Enabled(k, e)
    ensures t <= k.latest && t !in k.msgs ==> t <= Step(k, e).latest && t !in Step(k, e).msgs
    ensures t in k.msgs && t !in Step(k, e).msgs ==> t <= Step(k, e).latest
    ensures (t in k.msgs ==> t in Step(k, e).msgs) ==>
      Box(k, t) + (if e.Send? && e.task == t && t in k.sched.tasks then [e.msg] else []) == Handed(k, e, t) + Box(Step(k, e), t)
  {
    hide Inv, Waits, Sleepers, Registered, Rotate, Sleep, Wakeup, NewTask;
    var cur := RunningTask(k);
    assert k.msgs[cur] != [] ==> [k.msgs[cur][0]] + k.msgs[cur][1..] == k.msgs[cur];
  }

  lemma {:induction false} GoneForGood(k: Kernel, es: seq<Event>, t: TaskID)
    requires Safe(k) && RunOk(k, es) && t <= k.latest && t !in k.msgs
    ensures t !in Run(k, es).msgs
    decreases |es|
  {
    hide Safe, Step, Enabled;
    if es != [] {
      StepSafe(k, es[0]);
      StepDelivers(k, es[0], t);
      GoneForGood(Step(k, es[0]), es[1..], t);
    }
  }

  lemma {:induction false} RunDelivers(k: Kernel, es: seq<Event>, t: TaskID)
    requires Safe(k) && RunOk(k, es) && t in Run(k, es).msgs
    ensures Box(k, t) + Sent(k, es, t) == Got(k, es, t) + Run(k, es).msgs[t]
    decreases |es|
  {
    hide Safe, Step, Enabled, Handed;
    if es != [] {
      var k1 := Step(k, es[0]);
      StepSafe(k, es[0]);
      StepDelivers(k, es[0], t);
      if t in k.msgs && t !in k1.msgs { GoneForGood(k1, es[1..], t); }
      RunDelivers(k1, es[1..], t);
      var now := if es[0].Send? && es[0].task == t && t in k.sched.tasks then [es[0].msg] else [];
      assert Box(k, t) + Sent(k, es, t) == (Box(k, t) + now) + Sent(k1, es[1..], t);
      assert Got(k, es, t) + Run(k, es).msgs[t] == Handed(k, es[0], t) + (Got(k1, es[1..], t) + Run(k, es).msgs[t]);
    }
  }

  /** Messages arrive in the order in which they were sent, each once: what a task has been handed and
      what still waits for it is what was sent to it. */
  lemma MessagesInOrder(es: seq<Event>, t: TaskID)
    requires RunOk(Boot(), es) && t in Run(Boot(), es).msgs
    ensures Sent(Boot(), es, t) == Got(Boot(), es, t) + Run(Boot(), es).msgs[t]
  {
    hide Safe, RunOk, Run, Sent, Got;
    BootSafe();
    RunDelivers(Boot(), es, t);
    assert Box(Boot(), t) + Sent(Boot(), es, t) == Sent(Boot(), es, t);
  }
}
