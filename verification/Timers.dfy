/** The timer manager. Its priority queue is a multiset of which the top is some earliest timer. */
module Timers {
  import opened Wrappers

  datatype Timer = Timer(timeout: nat, value: int, task: nat)

  const TASK_TIMER_VALUE := 0x7fff_ffff
  const TASK_TIMER_PERIOD := 2
  const MAIN := 1
  const ULONG_MAX := 0xffff_ffff_ffff_ffff

  const SENTINEL := Timer(ULONG_MAX, -1, MAIN)

  predicate IsTask(t: Timer) { t.value == TASK_TIMER_VALUE }

  /** The tick on which a timer that is pending now will be sent. */
  function Due(t: Timer, tick: nat): nat {
    if t.timeout > tick then t.timeout else tick + 1
  }

  /** `adds` records each timer with the tick on which it is due, `log` each message with the tick on
      which it was sent; `taskTimer` is the task-switch timer that is pending. */
  datatype State = State(tick: nat, queue: multiset<Timer>, taskTimer: Option<Timer>,
                         adds: multiset<(nat, Timer)>, log: seq<(nat, Timer)>)

  function Stamped(tick: nat, out: seq<Timer>): (r: seq<(nat, Timer)>)
    ensures |r| == |out|
  {
    if out == [] then [] else Stamped(tick, out[..|out| - 1]) + [(tick, out[|out| - 1])]
  }

  predicate Ordered(out: seq<Timer>) {
    forall i, j :: 0 <= i < j < |out| ==> out[i].timeout <= out[j].timeout
  }

  predicate Fires(s: State) {
    s.taskTimer.Some? && s.taskTimer.value.timeout <= s.tick + 1
  }

  /** A tick: every timer that has expired is sent, earliest first; an expired task-switch timer is set
      again instead. */
  ghost predicate Ticked(s: State, t: State, out: seq<Timer>) {
    && t.tick == s.tick + 1 && t.adds == s.adds && t.log == s.log + Stamped(t.tick, out) && Ordered(out)
    && (forall x: Timer {:trigger multiset(out)[x]} :: multiset(out)[x] == if IsTask(x) || x.timeout > t.tick then 0 else s.queue[x])
    && (forall x: Timer {:trigger t.queue[x]} :: !IsTask(x) ==> t.queue[x] == if x.timeout > t.tick then s.queue[x] else 0)
    && t.taskTimer == (if Fires(s) then Some(Timer(t.tick + TASK_TIMER_PERIOD, TASK_TIMER_VALUE, MAIN)) else s.taskTimer)
    && TaskTimers(t)
  }

  /** AddTimer; there is one task-switch timer at most. */
  ghost predicate CanAdd(s: State, x: Timer) {
    x.timeout <= ULONG_MAX && (IsTask(x) ==> s.taskTimer == None)
  }

  function Added(s: State, x: Timer): State {
    if IsTask(x) then s.(queue := s.queue + multiset{x}, taskTimer := Some(x))
    else s.(queue := s.queue + multiset{x}, adds := s.adds + multiset{(Due(x, s.tick), x)})
  }

  ghost predicate TaskTimers(s: State) {
    (forall x: Timer {:trigger s.queue[x]} :: IsTask(x) ==> s.queue[x] == if s.taskTimer == Some(x) then 1 else 0)
    && (s.taskTimer.Some? ==> IsTask(s.taskTimer.value))
  }

  /** Every timer that was added is pending until it is due, and has been sent exactly then. */
  ghost predicate Delivery(s: State) {
    && (forall x: Timer {:trigger s.queue[x]} :: !IsTask(x) ==> s.queue[x] == s.adds[(Due(x, s.tick), x)])
    && (forall a <- s.adds :: !IsTask(a.1) && (a.0 > s.tick ==> a.0 == Due(a.1, s.tick)))
    && (forall k: nat, x: Timer {:trigger multiset(s.log)[(k, x)]} :: multiset(s.log)[(k, x)] == if k <= s.tick then s.adds[(k, x)] else 0)
  }

  /** Messages are sent in the order of their ticks, and within a tick of their deadlines. */
  predicate InOrder(log: seq<(nat, Timer)>) {
    forall i, j :: 0 <= i < j < |log| ==> log[i].0 < log[j].0 || (log[i].0 == log[j].0 && log[i].1.timeout <= log[j].1.timeout)
  }

  ghost predicate Inv(s: State) {
    && TaskTimers(s) && Delivery(s) && InOrder(s.log) && (forall i :: 0 <= i < |s.log| ==> s.log[i].0 <= s.tick)
    && SENTINEL in s.queue
  }

  function Init(): State {
    State(0, multiset{SENTINEL}, None, multiset{(ULONG_MAX, SENTINEL)}, [])
  }

  lemma InitInv()
    ensures Inv(Init())
  {
  }

  lemma AddInv(s: State, x: Timer)
    requires Inv(s) && CanAdd(s, x)
    ensures Inv(Added(s, x)) && x in Added(s, x).queue
    ensures IsTask(x) ==> Added(s, x).taskTimer == Some(x)
    ensures !IsTask(x) ==> (Due(x, s.tick), x) in Added(s, x).adds && Added(s, x).taskTimer == s.taskTimer
  {
    var t := Added(s, x);
    forall k: nat, y: Timer ensures multiset(t.log)[(k, y)] == if k <= t.tick then t.adds[(k, y)] else 0 {
      assert multiset(s.log)[(k, y)] == if k <= s.tick then s.adds[(k, y)] else 0;
    }
  }

  lemma {:induction false} StampedFacts(tick: nat, out: seq<Timer>)
    ensures forall i :: 0 <= i < |out| ==> Stamped(tick, out)[i] == (tick, out[i])
    ensures forall k: nat, x: Timer :: multiset(Stamped(tick, out))[(k, x)] == if k == tick then multiset(out)[x] else 0
  {
    if out != [] {
      var n := |out| - 1;
      StampedFacts(tick, out[..n]);
      assert out == out[..n] + [out[n]];
      assert multiset(out) == multiset(out[..n]) + multiset{out[n]};
    }
  }

  lemma TickInv(s: State, t: State, out: seq<Timer>)
    requires Inv(s) && Ticked(s, t, out) && t.tick < ULONG_MAX
    ensures Inv(t)
  {
    StampedFacts(t.tick, out);
    assert t.queue[SENTINEL] == s.queue[SENTINEL];
    assert Delivery(t) by { TickDelivery(s, t, out); }
  }

  lemma TickDelivery(s: State, t: State, out: seq<Timer>)
    requires Delivery(s) && Ticked(s, t, out)
    ensures Delivery(t)
  {
    StampedFacts(t.tick, out);
    forall k: nat, x: Timer ensures multiset(t.log)[(k, x)] == if k <= t.tick then t.adds[(k, x)] else 0 {
      assert multiset(t.log)[(k, x)] == multiset(s.log)[(k, x)] + multiset(Stamped(t.tick, out))[(k, x)];
      assert multiset(s.log)[(k, x)] == if k <= s.tick then s.adds[(k, x)] else 0;
      if k == t.tick {
        assert multiset(out)[x] == if IsTask(x) || x.timeout > t.tick then 0 else s.queue[x];
        if IsTask(x) || x.timeout > t.tick { assert (k, x) !in s.adds; }
      }
    }
  }

  datatype Event = Add(timer: Timer) | Tick

  /** One event, among the results that equal deadlines leave open. */
  ghost predicate Step(s: State, e: Event, t: State) {
    match e
    case Add(x) => CanAdd(s, x) && t == Added(s, x)
    case Tick => s.tick + 1 < ULONG_MAX && exists out: seq<Timer> :: Ticked(s, t, out)
  }

  ghost predicate Trace(states: seq<State>, events: seq<Event>) {
    |states| == |events| + 1 && forall i: nat {:trigger events[i]} :: i < |events| ==> Step(states[i], events[i], states[i + 1])
  }

  lemma {:induction false} TraceInv(states: seq<State>, events: seq<Event>, n: nat)
    requires Trace(states, events) && Inv(states[0]) && n < |states|
    ensures Inv(states[n])
  {
    hide Inv;
    if n > 0 {
      TraceInv(states, events, n - 1);
      var s, e, t := states[n - 1], events[n - 1], states[n];
      match e
      case Add(x) => AddInv(s, x);
      case Tick =>
        var out :| Ticked(s, t, out);
        TickInv(s, t, out);
    }
  }

  /** Over every run: a timer that is added is sent exactly once, on the tick on which it is due, and
      messages come in the order of their deadlines. */
  lemma SentWhenDue(states: seq<State>, events: seq<Event>)
    requires Trace(states, events) && states[0] == Init()
    ensures var s := states[|events|];
      && (forall k: nat, x: Timer {:trigger multiset(s.log)[(k, x)]} :: multiset(s.log)[(k, x)] == if k <= s.tick then s.adds[(k, x)] else 0)
      && (forall x: Timer {:trigger s.queue[x]} :: !IsTask(x) ==> s.queue[x] == s.adds[(Due(x, s.tick), x)])
      && InOrder(s.log)
  {
    InitInv();
    TraceInv(states, events, |events|);
  }

  /** The task-switch timer armed for tick `first` is pending for the next tick of its period. */
  ghost predicate Armed(s: State, first: nat) {
    && s.taskTimer.Some?
    && var d := s.taskTimer.value.timeout;
      if s.tick < first then d == first
      else s.tick < d <= s.tick + TASK_TIMER_PERIOD && (d - first) % TASK_TIMER_PERIOD == 0
  }

  lemma {:induction false} StaysArmed(states: seq<State>, events: seq<Event>, first: nat, n: nat)
    requires Trace(states, events) && Inv(states[0]) && Armed(states[0], first) && n < |states|
    ensures Armed(states[n], first)
  {
    hide Inv;
    if n > 0 {
      StaysArmed(states, events, first, n - 1);
      var s, e, t := states[n - 1], events[n - 1], states[n];
      if e.Tick? {
        var out :| Ticked(s, t, out);
      }
    }
  }

  /** It fires on tick `first` and every period after it, and on no other tick. */
  lemma FiresEveryPeriod(states: seq<State>, events: seq<Event>, first: nat, n: nat)
    requires Trace(states, events) && Inv(states[0]) && Armed(states[0], first) && n < |events| && events[n].Tick?
    ensures Fires(states[n]) <==>
      states[n + 1].tick >= first && (states[n + 1].tick - first) % TASK_TIMER_PERIOD == 0
  {
    hide Inv;
    StaysArmed(states, events, first, n);
    var out :| Ticked(states[n], states[n + 1], out);
  }

  class TimerManager {
    var tick: nat
    var timers: multiset<Timer>
    ghost var taskTimer: Option<Timer>
    ghost var adds: multiset<(nat, Timer)>
    ghost var log: seq<(nat, Timer)>

    ghost function Now(): State
      reads this
    {
      State(tick, timers, taskTimer, adds, log)
    }

    /** TimerManager::TimerManager: only the sentinel, which never expires, is pending. */
    constructor ()
      ensures Now() == Init() && Inv(Now())
    {
      tick, timers := 0, multiset{SENTINEL};
      taskTimer, adds, log := None, multiset{(ULONG_MAX, SENTINEL)}, [];
      new;
      InitInv();
    }

    method AddTimer(timer: Timer)
      requires Inv(Now()) && CanAdd(Now(), timer)
      modifies this
      ensures Inv(Now()) && Now() == Added(old(Now()), timer)
    {
      AddInv(Now(), timer);
      if IsTask(timer) {
        taskTimer := Some(timer);
      } else {
        adds := adds + multiset{(Due(timer, tick), timer)};
      }
      timers := timers + multiset{timer};
    }

    /** The top of the queue. */
    method Top() returns (t: Timer)
      requires |timers| > 0
      ensures t in timers && forall u <- timers :: t.timeout <= u.timeout
    {
      hide IsTask;
      Earliest(timers);
      t :| t in timers && forall u <- timers :: t.timeout <= u.timeout;
    }

    /** The task-switch timer has expired: it is set again. */
    method ResetTaskTimer(ghost s: State, t: Timer, ghost sent: seq<Timer>, ghost fired: bool)
      requires Popped(s, timers, taskTimer, sent, fired, tick) && t in timers && t.timeout <= tick == s.tick + 1 && IsTask(t)
      modifies this`timers, this`taskTimer
      ensures Popped(s, timers, taskTimer, sent, true, tick) && !fired && |timers| == |old(timers)|
    {
      hide Popped;
      PopTask(s, timers, taskTimer, sent, fired, tick, t);
      var next := Timer(tick + TASK_TIMER_PERIOD, TASK_TIMER_VALUE, MAIN);
      taskTimer := Some(next);
      timers := timers - multiset{t} + multiset{next};
    }

    /** TimerManager::Tick; `sent` are the timers for which a message is sent, in that order. */
    method Tick() returns (task_timer_timeout: bool, sent: seq<Timer>)
      requires Inv(Now()) && tick + 1 < ULONG_MAX
      modifies this
      ensures Ticked(old(Now()), Now(), sent) && Inv(Now()) && task_timer_timeout == Fires(old(Now()))
    {
      hide Inv, Popped, Ticked, Fires, Due;
      ghost var s := Now();
      tick := tick + 1;
      task_timer_timeout, sent := false, [];
      NothingPopped(s);
      while true
        invariant tick == s.tick + 1 && tick < ULONG_MAX && adds == s.adds && log == s.log
        invariant Popped(s, timers, taskTimer, sent, task_timer_timeout, tick)
        decreases |timers| + (if task_timer_timeout then 0 else 1)
      {
        SentinelStays(s, timers, taskTimer, sent, task_timer_timeout, tick);
        var t := Top();
        if t.timeout > tick {
          break;
        }
        if t.value == TASK_TIMER_VALUE {
          ResetTaskTimer(s, t, sent, task_timer_timeout);
          task_timer_timeout := true;
          continue;
        }
        PopTimer(s, timers, taskTimer, sent, task_timer_timeout, tick, t);
        sent := sent + [t];
        timers := timers - multiset{t};
      }
      log := log + Stamped(tick, sent);
      AllPopped(s, Now(), sent, task_timer_timeout);
      TickInv(s, Now(), sent);
    }
  }

  lemma NothingPopped(s: State)
    requires Inv(s)
    ensures Popped(s, s.queue, s.taskTimer, [], false, s.tick + 1) && SENTINEL in s.queue
  {
    hide Delivery, InOrder;
  }

  lemma PopTask(s: State, timers: multiset<Timer>, taskTimer: Option<Timer>, sent: seq<Timer>, fired: bool, tick: nat, t: Timer)
    requires Popped(s, timers, taskTimer, sent, fired, tick) && t in timers && t.timeout <= tick == s.tick + 1 && IsTask(t)
    ensures !fired
    ensures var next := Timer(tick + TASK_TIMER_PERIOD, TASK_TIMER_VALUE, MAIN);
      Popped(s, timers - multiset{t} + multiset{next}, Some(next), sent, true, tick)
      && |timers - multiset{t} + multiset{next}| == |timers|
  {
  }

  lemma PopTimer(s: State, timers: multiset<Timer>, taskTimer: Option<Timer>, sent: seq<Timer>, fired: bool, tick: nat, t: Timer)
    requires Popped(s, timers, taskTimer, sent, fired, tick) && t in timers && t.timeout <= tick && !IsTask(t)
    requires forall u <- timers :: t.timeout <= u.timeout
    ensures Popped(s, timers - multiset{t}, taskTimer, sent + [t], fired, tick) && |timers - multiset{t}| < |timers|
  {
    assert multiset(sent + [t]) == multiset(sent) + multiset{t};
  }

  lemma AllPopped(s: State, r: State, sent: seq<Timer>, fired: bool)
    requires Popped(s, r.queue, r.taskTimer, sent, fired, r.tick) && r.tick == s.tick + 1 && r.adds == s.adds && Inv(s)
    requires r.log == s.log + Stamped(r.tick, sent) && forall u <- r.queue :: u.timeout > r.tick
    ensures Ticked(s, r, sent) && fired == Fires(s)
  {
    hide Delivery, InOrder, Popped, Stamped, Fires;
    SentCounts(s, r, sent, fired);
    FiredIs(s, r, sent, fired);
  }

  lemma SentCounts(s: State, r: State, sent: seq<Timer>, fired: bool)
    requires Popped(s, r.queue, r.taskTimer, sent, fired, r.tick) && forall u <- r.queue :: u.timeout > r.tick
    ensures Ordered(sent)
    ensures forall x: Timer {:trigger multiset(sent)[x]} :: multiset(sent)[x] == if IsTask(x) || x.timeout > r.tick then 0 else s.queue[x]
    ensures forall x: Timer {:trigger r.queue[x]} :: !IsTask(x) ==> r.queue[x] == if x.timeout > r.tick then s.queue[x] else 0
  {
    forall x: Timer
      ensures multiset(sent)[x] == if IsTask(x) || x.timeout > r.tick then 0 else s.queue[x]
      ensures !IsTask(x) ==> r.queue[x] == if x.timeout > r.tick then s.queue[x] else 0
    {
      assert !IsTask(x) ==> r.queue[x] + multiset(sent)[x] == s.queue[x];
      assert x in sent ==> !IsTask(x) && x.timeout <= r.tick;
      assert x in r.queue ==> x.timeout > r.tick;
    }
  }

  lemma FiredIs(s: State, r: State, sent: seq<Timer>, fired: bool)
    requires Popped(s, r.queue, r.taskTimer, sent, fired, r.tick) && r.tick == s.tick + 1 && TaskTimers(s)
    requires forall u <- r.queue :: u.timeout > r.tick
    ensures fired == Fires(s) && TaskTimers(r)
    ensures r.taskTimer == if Fires(s) then Some(Timer(r.tick + TASK_TIMER_PERIOD, TASK_TIMER_VALUE, MAIN)) else s.taskTimer
  {
    hide Ordered;
    assert !fired && s.taskTimer.Some? ==> r.queue[s.taskTimer.value] == 1;
  }

  lemma {:induction false} Earliest(q: multiset<Timer>)
    requires |q| > 0
    ensures exists t: Timer :: t in q && forall u <- q :: t.timeout <= u.timeout
    decreases |q|
  {
    var x :| x in q;
    var rest := q - multiset{x};
    if |rest| > 0 {
      Earliest(rest);
      var y :| y in rest && forall u <- rest :: y.timeout <= u.timeout;
      EarlierOf(q, x, y);
    } else {
      assert rest == multiset{};
      EarlierOf(q, x, x);
    }
  }

  lemma EarlierOf(q: multiset<Timer>, x: Timer, y: Timer)
    requires x in q && y in q && forall u <- q - multiset{x} :: y.timeout <= u.timeout
    ensures exists t: Timer :: t in q && forall u <- q :: t.timeout <= u.timeout
  {
    var t := if x.timeout <= y.timeout then x else y;
    forall u | u in q ensures t.timeout <= u.timeout {
      if u != x { assert u in q - multiset{x}; }
    }
  }

  /** Halfway through Tick's loop. */
  ghost predicate Popped(s: State, timers: multiset<Timer>, taskTimer: Option<Timer>, sent: seq<Timer>, fired: bool, tick: nat) {
    && Ordered(sent) && (forall x <- timers, y <- sent :: y.timeout <= x.timeout)
    && (forall x: Timer {:trigger timers[x]} {:trigger multiset(sent)[x]} :: !IsTask(x) ==> timers[x] + multiset(sent)[x] == s.queue[x])
    && (forall y <- sent :: !IsTask(y) && y.timeout <= tick)
    && (forall x: Timer {:trigger timers[x]} :: IsTask(x) ==> timers[x] == if taskTimer == Some(x) then 1 else 0)
    && (fired ==> Fires(s) && taskTimer == Some(Timer(tick + TASK_TIMER_PERIOD, TASK_TIMER_VALUE, MAIN)))
    && (!fired ==> taskTimer == s.taskTimer)
  }

  lemma SentinelStays(s: State, timers: multiset<Timer>, taskTimer: Option<Timer>, sent: seq<Timer>, fired: bool, tick: nat)
    requires Popped(s, timers, taskTimer, sent, fired, tick) && SENTINEL in s.queue && tick < ULONG_MAX
    ensures SENTINEL in timers && |timers| > 0
  {
    assert timers[SENTINEL] + multiset(sent)[SENTINEL] == s.queue[SENTINEL];
    assert SENTINEL !in sent;
  }
}
