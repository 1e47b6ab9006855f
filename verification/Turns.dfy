/** Every ready task of the highest busy level gets its turn. */
module Turns {
  import opened Scheduler

  /** What can happen between two instructions of the task that runs. */
  datatype Action = Tick | Block(task: TaskID) | Wake(task: TaskID, level: int) | Spawn(task: TaskID) | End

  /** Exactly the actions after which there is still a task to run: a task may be put to sleep or end only
      while another one is ready, which the idle task is unless somebody puts it to sleep. */
  ghost predicate Allowed(s: Sched, a: Action) {
    Sane(s) && match a
      case Tick => true
      case Block(t) => t in s.tasks && (s.tasks[t].running ==> OtherReady(s, t))
      case Wake(t, level) => t in s.tasks && level < 4
      case Spawn(t) => t !in s.tasks
      case End => OtherReady(s, Front(s))
  }

  function Apply(s: Sched, a: Action): Sched
    requires Allowed(s, a)
  {
    match a
    case Tick => Rotate(s, false)
    case Block(t) => Sleep(s, t)
    case Wake(t, level) => Wakeup(s, t, level)
    case Spawn(t) => NewTask(s, t)
    case End => Exit(s)
  }

  /** Every allowed action keeps the queues in order; a tick leaves the highest busy level running. */
  lemma ApplySane(s: Sched, a: Action)
    requires Allowed(s, a)
    ensures Sane(Apply(s, a)) && (a.Tick? ==> Quiet(Apply(s, a).queues, Apply(s, a).current))
  {
    match a
    case Tick => SwitchSane(s);
    case Block(t) => SleepIff(s, t);
    case Wake(t, level) => WakeupSane(s, t, level);
    case Spawn(t) => NewTaskSane(s, t);
    case End => ExitIff(s);
  }

  ghost predicate AllowedRun(s: Sched, actions: seq<Action>)
    decreases |actions|
  {
    actions == [] || (Allowed(s, actions[0]) && AllowedRun(Apply(s, actions[0]), actions[1..]))
  }

  ghost function RunOf(s: Sched, actions: seq<Action>): Sched
    requires AllowedRun(s, actions)
    decreases |actions|
  {
    if actions == [] then s else RunOf(Apply(s, actions[0]), actions[1..])
  }

  lemma {:induction false} RunSane(s: Sched, actions: seq<Action>)
    requires Sane(s) && AllowedRun(s, actions)
    ensures Sane(RunOf(s, actions))
    ensures actions != [] && actions[|actions| - 1].Tick? ==> Quiet(RunOf(s, actions).queues, RunOf(s, actions).current)
    decreases |actions|
  {
    hide Sane, Allowed, Apply, Quiet;
    if actions != [] {
      ApplySane(s, actions[0]);
      RunSane(Apply(s, actions[0]), actions[1..]);
    }
  }

  /** In every state that the scheduler reaches from its first one, whatever tasks sleep, wake, at any level,
      appear and end: a live task is marked running exactly when it stands in the queue of its own level, and
      then once and in no other; the queue that runs is not empty; a busy queue above it has been noticed; and
      after a tick the task that runs is on the highest busy level. */
  lemma Reachable(actions: seq<Action>)
    requires AllowedRun(Init(), actions)
    ensures var s := RunOf(Init(), actions);
      && |s.queues| == 4 && s.current < 4 && s.queues[s.current] != [] && (forall t <- s.tasks :: s.tasks[t].level < 4)
      && (forall l, t {:trigger t in s.queues[l]} :: 0 <= l < 4 ==>
            (t in s.queues[l] <==> t in s.tasks && s.tasks[t].running && s.tasks[t].level == l))
      && (forall l {:trigger s.queues[l]} :: 0 <= l < 4 ==> NoDup(s.queues[l]))
      && (forall m :: s.current < m < 4 && s.queues[m] != [] ==> s.changed)
      && (actions != [] && actions[|actions| - 1].Tick? ==> forall m :: s.current < m < 4 ==> s.queues[m] == [])
  {
    hide NoDup;
    InitInv();
    RunSane(Init(), actions);
    var s := RunOf(Init(), actions);
    forall l | 0 <= l < 4 ensures Placed(s.queues[l], s.tasks, l) {}
  }

  /** Once the first task sleeps the idle task is the last one that is ready: neither may it be put to sleep
      nor may it end. */
  lemma LastTask()
    ensures AllowedRun(Init(), [Block(MAIN)])
    ensures var s := RunOf(Init(), [Block(MAIN)]);
      Sane(s) && Front(s) == IDLE && !Sane(Sleep(s, IDLE)) && !Sane(Exit(s))
  {
    InitInv();
    var first := Block(MAIN);
    assert Init().tasks[IDLE].running && OtherReady(Init(), MAIN);
    assert [first][1..] == [];
    ApplySane(Init(), first);
    var s := Apply(Init(), first);
    assert AllowedRun(s, []) && RunOf(s, []) == s && RunOf(Init(), [first]) == s;
    assert forall t <- s.tasks :: s.tasks[t].running ==> t == IDLE;
    SleepIff(s, IDLE);
    ExitIff(s);
  }

  /** The task that an action is about. */
  function Subject(s: Sched, a: Action): TaskID
    requires Sane(s)
  {
    if a.Tick? || a.End? then Front(s) else a.task
  }

  lemma {:induction false} RemoveJoins(p: seq<TaskID>, q: seq<TaskID>, t: TaskID)
    ensures Remove(p + q, t) == Remove(p, t) + Remove(q, t)
  {
    if p != [] {
      RemoveJoins(p[1..], q, t);
      assert (p + q)[1..] == p[1..] + q;
    } else {
      assert p + q == q;
    }
  }

  lemma {:induction false} RemoveTwice(q: seq<TaskID>, t: TaskID)
    ensures Remove(Remove(q, t), t) == Remove(q, t)
  {
    if q != [] {
      RemoveTwice(q[1..], t);
      if q[0] != t { assert ([q[0]] + Remove(q[1..], t))[1..] == Remove(q[1..], t); }
    }
  }

  /** What pushing, popping and erasing one task does to the others: nothing. */
  lemma OthersOrder(q: seq<TaskID>, t: TaskID)
    ensures Remove(q + [t], t) == Remove(q, t) && Remove([t] + q, t) == Remove(q, t) && Remove(Remove(q, t), t) == Remove(q, t)
    ensures q != [] && q[0] == t ==> Remove(q[1..], t) == Remove(q, t) == Remove(q[1..] + [t], t)
  {
    RemoveJoins(q, [t], t);
    RemoveJoins([t], q, t);
    RemoveTwice(q, t);
    if q != [] { RemoveJoins(q[1..], [t], t); }
  }

  /** Whatever happens to a task, the others keep their order in every queue. */
  lemma OrderKept(s: Sched, a: Action, l: nat)
    requires Allowed(s, a) && l < 4
    ensures var t := Subject(s, a); Remove(Apply(s, a).queues[l], t) == Remove(s.queues[l], t)
  {
    hide NoDup, Placed, Quiet, HighestFrom, Remove;
    OthersOrder(s.queues[l], Subject(s, a));
    assert s.queues[s.current][1..] + [] == s.queues[s.current][1..];
    FrontLevel(s);
  }

  lemma FrontLevel(s: Sched)
    requires Sane(s)
    ensures Front(s) in s.tasks && s.tasks[Front(s)].running && s.tasks[Front(s)].level == s.current
  {
    assert Placed(s.queues[s.current], s.tasks, s.current) && Front(s) in s.queues[s.current];
  }

  /** The processor changes hands only with a tick, a sleep of the task that runs, and its end: the others leave
      the task that runs in front. */
  lemma FrontKept(s: Sched, a: Action)
    requires Allowed(s, a) && (a.Wake? || a.Spawn? || (a.Block? && a.task != Front(s)))
    ensures Sane(Apply(s, a)) && Front(Apply(s, a)) == Front(s)
  {
    ApplySane(s, a);
    if a.Block? && s.tasks[a.task].running { FrontStays(s.queues[s.current], a.task); }
    if a.Wake? && s.tasks[a.task].running { FrontStays(s.queues[s.current], a.task); }
  }

  /** The flag rises only for a cause: a queue above the current one is busy, or the running task has moved down. */
  lemma FlagRises(s: Sched, a: Action)
    requires Allowed(s, a) && !s.changed && Apply(s, a).changed
    ensures a.Wake? && Sane(Apply(s, a))
    ensures (a.task == Front(s) && a.level < s.current) ||
            exists m: nat :: Apply(s, a).current < m < 4 && Apply(s, a).queues[m] != []
  {
    hide NoDup, HighestFrom, Remove;
    ApplySane(s, a);
    FrontLevel(s);
    if a.Block? { SleepIff(s, a.task); }
    if a.End? { ExitIff(s); }
    if a.Wake? {
      WakeupSane(s, a.task, a.level);
      var r := Apply(s, a);
      var l := r.tasks[a.task].level;
      assert Placed(r.queues[l], r.tasks, l) && a.task in r.queues[l];
    }
  }

  lemma FrontStays(q: seq<TaskID>, t: TaskID)
    ensures q != [] && q[0] != t ==> Remove(q, t) != [] && Remove(q, t)[0] == q[0]
  {
  }

  /** Where a task comes to stand: behind all others of its level when its turn is over, when it wakes, and when
      it is moved while another one runs; where it was when it is told to be where it is. */
  lemma WhereItStands(s: Sched, a: Action)
    requires Allowed(s, a) && (a.Tick? || a.Wake?)
    ensures var t, r := Subject(s, a), Apply(s, a);
      && t in s.tasks && t in r.tasks && r.tasks[t].level < 4 && t in r.queues[r.tasks[t].level]
      && (a.Tick? ==> r.tasks == s.tasks)
      && (a.Wake? && s.tasks[t].running && (a.level < 0 || a.level == s.tasks[t].level) ==> r == s)
      && (a.Wake? && a.level >= 0 ==> r.tasks[t].level == a.level)
      && (a.Tick? || (a.Wake? && !s.tasks[t].running) || (t != Front(s) && r.tasks[t].level != s.tasks[t].level) ==>
            var q := r.queues[r.tasks[t].level]; q[|q| - 1] == t)
  {
    hide NoDup, HighestFrom, Remove;
    ApplySane(s, a);
    var t, r := Subject(s, a), Apply(s, a);
    assert Placed(s.queues[s.current], s.tasks, s.current) && Front(s) in s.queues[s.current];
    if a.Wake? { WakeupSane(s, a.task, a.level); }
    assert Placed(r.queues[r.tasks[t].level], r.tasks, r.tasks[t].level);
  }

  /** The place of a task in a queue. */
  function Place(q: seq<TaskID>, t: TaskID): (r: nat)
    requires t in q
    ensures r < |q| && q[r] == t && (r == 0 <==> q[0] == t)
  {
    if q[0] == t then 0 else 1 + Place(q[1..], t)
  }

  lemma {:induction false} PlaceRemoved(q: seq<TaskID>, t: TaskID, u: TaskID)
    requires t in q && u != t
    ensures t in Remove(q, u) && Place(Remove(q, u), t) <= Place(q, t)
  {
    if q[0] != t {
      PlaceRemoved(q[1..], t, u);
      if q[0] != u { assert ([q[0]] + Remove(q[1..], u))[1..] == Remove(q[1..], u); }
    }
  }

  lemma {:induction false} PlaceAppended(q: seq<TaskID>, t: TaskID, u: TaskID)
    requires t in q
    ensures Place(q + [u], t) == Place(q, t)
  {
    if q[0] != t {
      PlaceAppended(q[1..], t, u);
      assert (q + [u])[1..] == q[1..] + [u];
    }
  }

  lemma PlacePrepended(q: seq<TaskID>, t: TaskID, u: TaskID)
    requires t in q && u != t
    ensures Place([u] + q, t) == Place(q, t) + 1
  {
    assert ([u] + q)[1..] == q;
  }

  /** A ready task of the highest busy level. */
  ghost predicate Ready(s: Sched, t: TaskID) {
    Sane(s) && t in s.tasks && s.tasks[t].running && Quiet(s.queues, s.tasks[t].level)
  }

  /** How many turns the task has to wait: its place, and one more while a lower level runs. */
  ghost function Wait(s: Sched, t: TaskID): (r: nat)
    requires Ready(s, t)
    ensures r == 0 <==> Front(s) == t
  {
    Place(s.queues[s.tasks[t].level], t) + (if s.current == s.tasks[t].level then 0 else 1)
  }

  /** The action leaves the task alone, and brings no other task above it. */
  ghost predicate Calm(s: Sched, a: Action, t: TaskID)
    requires Allowed(s, a) && t in s.tasks
  {
    match a
    case Tick => true
    case Block(u) => u != t
    case Wake(u, level) => u != t && (if level < 0 then s.tasks[u].level else level) <= s.tasks[t].level
    case Spawn(u) => true
    case End => Front(s) != t
  }

  lemma TickCloser(s: Sched, t: TaskID)
    requires Ready(s, t) && Front(s) != t
    ensures Ready(Rotate(s, false), t) && Wait(Rotate(s, false), t) < Wait(s, t)
  {
    hide NoDup;
    SwitchSane(s);
    var q := s.queues[s.current];
    if s.current == s.tasks[t].level {
      PlaceAppended(q[1..], t, q[0]);
    }
  }

  lemma BlockCloser(s: Sched, t: TaskID, u: TaskID)
    requires Ready(s, t) && Front(s) != t && u in s.tasks && u != t
    ensures Ready(Sleep(s, u), t) && Wait(Sleep(s, u), t) <= Wait(s, t)
  {
    hide NoDup;
    SleepIff(s, u);
    PlaceRemoved(s.queues[s.tasks[t].level], t, u);
    assert s.queues[s.current][1..] + [] == s.queues[s.current][1..];
  }

  lemma EndCloser(s: Sched, t: TaskID)
    requires Ready(s, t) && Front(s) != t
    ensures Ready(Exit(s), t) && Wait(Exit(s), t) <= Wait(s, t)
  {
    hide NoDup;
    ExitIff(s);
    BlockCloser(s, t, Front(s));
  }

  lemma WakeReady(s: Sched, t: TaskID, u: TaskID, level: int)
    requires Ready(s, t) && Front(s) != t && Allowed(s, Wake(u, level)) && Calm(s, Wake(u, level), t)
    ensures Ready(Wakeup(s, u, level), t) && Wakeup(s, u, level).tasks[t] == s.tasks[t] && t in s.queues[s.tasks[t].level]
  {
    hide NoDup, HighestFrom, Remove;
    WakeupSane(s, u, level);
    assert Placed(s.queues[s.tasks[t].level], s.tasks, s.tasks[t].level);
    if s.tasks[u].running { RemoveFacts(s.queues[s.tasks[u].level], u); }
  }

  lemma WakeCloser(s: Sched, t: TaskID, u: TaskID, level: int)
    requires Ready(s, t) && Front(s) != t && Allowed(s, Wake(u, level)) && Calm(s, Wake(u, level), t)
    ensures Ready(Wakeup(s, u, level), t) && Wait(Wakeup(s, u, level), t) <= Wait(s, t)
  {
    hide NoDup, Remove, HighestFrom;
    WakeReady(s, t, u, level);
    var q := s.queues[s.tasks[t].level];
    PlaceRemoved(q, t, u);
    PlaceAppended(q, t, u);
    PlacePrepended(q, t, u);
  }

  /** No calm action pushes the task back, and every turn of the timer brings it closer. */
  lemma Closer(s: Sched, a: Action, t: TaskID)
    requires Ready(s, t) && Front(s) != t && Allowed(s, a) && Calm(s, a, t)
    ensures Ready(Apply(s, a), t) && Wait(Apply(s, a), t) + (if a.Tick? then 1 else 0) <= Wait(s, t)
  {
    match a
    case Tick => TickCloser(s, t);
    case Block(u) => BlockCloser(s, t, u);
    case Wake(u, level) => WakeCloser(s, t, u, level);
    case Spawn(u) => NewTaskSane(s, u);
    case End => EndCloser(s, t);
  }

  function Ticks(actions: seq<Action>): nat {
    if actions == [] then 0 else (if actions[0].Tick? then 1 else 0) + Ticks(actions[1..])
  }

  /** The actions are calm as long as the task waits. */
  ghost predicate CalmRun(s: Sched, actions: seq<Action>, t: TaskID)
    requires Ready(s, t)
    decreases |actions|
  {
    Front(s) == t || actions == [] ||
    (Allowed(s, actions[0]) && Calm(s, actions[0], t) &&
     (Ready(Apply(s, actions[0]), t) ==> CalmRun(Apply(s, actions[0]), actions[1..], t)))
  }

  /** The task runs at some point. */
  ghost predicate GetsTurn(s: Sched, actions: seq<Action>, t: TaskID)
    requires Sane(s)
    decreases |actions|
  {
    Front(s) == t ||
    (actions != [] && Allowed(s, actions[0]) && Sane(Apply(s, actions[0])) && GetsTurn(Apply(s, actions[0]), actions[1..], t))
  }

  /** A task at place `k` of the highest busy level runs within `k` turns of the timer, whatever the
      tasks of its own and of lower levels do. */
  lemma {:induction false} TurnComes(s: Sched, actions: seq<Action>, t: TaskID)
    requires Ready(s, t) && CalmRun(s, actions, t) && Ticks(actions) >= Wait(s, t)
    ensures GetsTurn(s, actions, t)
    decreases |actions|
  {
    hide Ready, Wait, Calm, Allowed, Apply;
    ReadySane(s, t);
    if Front(s) != t && actions != [] {
      Closer(s, actions[0], t);
      ReadySane(Apply(s, actions[0]), t);
      TurnComes(Apply(s, actions[0]), actions[1..], t);
    }
  }

  lemma ReadySane(s: Sched, t: TaskID)
    requires Ready(s, t)
    ensures Sane(s)
  {
  }
}
