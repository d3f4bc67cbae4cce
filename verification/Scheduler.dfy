/** Counters and the choice of the next task (kernel/sched.c:121-164, 181-233, 384-387). */
module Scheduler {
  datatype State = Running | Interruptible | Uninterruptible | Zombie | Stopped

  datatype Task = Task(state: State, counter: nat, priority: nat)

  /** The tasks in the order of the task ring, from init_task, which is the idle task. */
  datatype System = System(tasks: seq<Task>, current: nat, needResched: bool)

  predicate Runnable(tasks: seq<Task>, i: int) {
    0 < i < |tasks| && tasks[i].state.Running?
  }

  ghost predicate NoneRunnable(tasks: seq<Task>) {
    forall i :: !Runnable(tasks, i)
  }

  /** Nothing that can run has ticks left. */
  ghost predicate AllSpent(tasks: seq<Task>) {
    forall i :: Runnable(tasks, i) ==> tasks[i].counter == 0
  }

  // ---- schedule

  /** Tasks in an interruptible sleep with a signal or an expired timeout become runnable (kernel/sched.c:131-145). */
  function Woken(tasks: seq<Task>, ready: set<nat>): (t: seq<Task>)
    ensures |t| == |tasks|
    ensures forall i :: 0 <= i < |t| ==>
      t[i] == if i > 0 && i in ready && tasks[i].state.Interruptible? then tasks[i].(state := Running) else tasks[i]
  {
    seq(|tasks|, i requires 0 <= i < |tasks| =>
      if i > 0 && i in ready && tasks[i].state.Interruptible? then tasks[i].(state := Running) else tasks[i])
  }

  /** The scan for the best of the first n tasks (kernel/sched.c:150-157): its counter and its index. */
  function Best(tasks: seq<Task>, n: nat): (int, nat)
    requires 1 <= n <= |tasks|
  {
    if n == 1 then (-1, 0)
    else
      var b := Best(tasks, n - 1);
      if tasks[n - 1].state.Running? && tasks[n - 1].counter > b.0 then (tasks[n - 1].counter as int, n - 1) else b
  }

  /** The task found is the first with the largest counter of those that can run; idle if none can. */
  ghost predicate IsBest(tasks: seq<Task>, n: nat, c: int, next: nat)
    requires n <= |tasks|
  {
    && (forall i :: 0 < i < n && tasks[i].state.Running? ==> tasks[i].counter <= c)
    && (forall i :: 0 < i < next && i < n && tasks[i].state.Running? ==> tasks[i].counter < c)
    && (if c == -1 then next == 0 else 0 < next < n && tasks[next].state.Running? && tasks[next].counter == c)
    && c >= -1
  }

  lemma {:induction false} BestIs(tasks: seq<Task>, n: nat)
    requires 1 <= n <= |tasks|
    ensures IsBest(tasks, n, Best(tasks, n).0, Best(tasks, n).1)
  {
    if n > 1 {
      BestIs(tasks, n - 1);
    }
  }

  /** The recharge (kernel/sched.c:159-162). */
  function Recharged(tasks: seq<Task>): (t: seq<Task>)
    ensures |t| == |tasks|
    ensures forall i :: 0 <= i < |t| ==>
      t[i] == if i == 0 then tasks[i] else tasks[i].(counter := tasks[i].counter / 2 + tasks[i].priority)
  {
    seq(|tasks|, i requires 0 <= i < |tasks| =>
      if i == 0 then tasks[i] else tasks[i].(counter := tasks[i].counter / 2 + tasks[i].priority))
  }

  predicate Recharges(tasks: seq<Task>)
    requires tasks != []
  {
    Best(tasks, |tasks|).0 == 0
  }

  function Scheduled(tasks: seq<Task>, ready: set<nat>): System
    requires tasks != []
  {
    var t := Woken(tasks, ready);
    System(if Recharges(t) then Recharged(t) else t, Best(t, |t|).1, false)
  }

  /** The task can run now: it was running, or sleeps interruptibly and has a signal or an expired timeout. */
  predicate CanRun(tasks: seq<Task>, ready: set<nat>, i: int) {
    0 < i < |tasks| && (tasks[i].state.Running? || (tasks[i].state.Interruptible? && i in ready))
  }

  /** schedule's choice and what it does to the tasks: of those that can run, the first with the most ticks left, or
      idle if there is none; those that were ready run; and exactly if some can run and none of them has ticks left,
      every task keeps half of its ticks and gets its priority on top. */
  ghost predicate Chooses(tasks: seq<Task>, ready: set<nat>, s: System) {
    && |s.tasks| == |tasks| && s.current < |tasks| && !s.needResched
    && (s.current == 0 <==> forall i :: !CanRun(tasks, ready, i))
    && (s.current != 0 ==>
          && CanRun(tasks, ready, s.current)
          && (forall i :: CanRun(tasks, ready, i) ==> tasks[i].counter <= tasks[s.current].counter)
          && (forall i :: CanRun(tasks, ready, i) && i < s.current ==> tasks[i].counter < tasks[s.current].counter))
    && (var spent := s.current != 0 && forall i :: CanRun(tasks, ready, i) ==> tasks[i].counter == 0;
        forall i :: 0 <= i < |tasks| ==>
          && s.tasks[i].state == (if CanRun(tasks, ready, i) then Running else tasks[i].state)
          && s.tasks[i].priority == tasks[i].priority
          && s.tasks[i].counter
             == if spent && i > 0 then tasks[i].counter / 2 + tasks[i].priority else tasks[i].counter)
  }

  lemma ChoiceIs(t: seq<Task>, c: int, next: nat)
    requires t != [] && IsBest(t, |t|, c, next)
    ensures next < |t| && (next == 0 <==> forall i :: !Runnable(t, i))
    ensures next != 0 ==> Runnable(t, next) && c == t[next].counter
    ensures forall i :: Runnable(t, i) ==> t[i].counter <= c && (i < next ==> t[i].counter < c)
    ensures c == 0 <==> next != 0 && forall i :: Runnable(t, i) ==> t[i].counter == 0
  {
    if next != 0 {
      assert Runnable(t, next);
    } else {
      forall i ensures Runnable(t, i) ==> t[i].counter <= -1 { }
    }
  }

  lemma ScheduledChooses(tasks: seq<Task>, ready: set<nat>)
    requires tasks != []
    ensures Chooses(tasks, ready, Scheduled(tasks, ready))
  {
    var t := Woken(tasks, ready);
    BestIs(t, |t|);
    var c, next := Best(t, |t|).0, Best(t, |t|).1;
    hide Best, Woken, Recharged;
    forall i
      ensures CanRun(tasks, ready, i) <==> Runnable(t, i)
      ensures 0 <= i < |tasks| ==> t[i].counter == tasks[i].counter && t[i].priority == tasks[i].priority
    {
    }
    ChoiceIs(t, c, next);
  }

  // ---- steps

  /** What can happen: a timer tick, another reason to reschedule, a wake-up, the current task going to sleep, and
      a call of schedule; `ready` are the sleepers schedule finds to have a signal or a timeout. */
  datatype Event = Tick | Alarm | Wake(i: nat) | Sleep(to: State, ready: set<nat>) | Schedule(ready: set<nat>)

  /** schedule runs before the next tick when need_resched is set; idle does not sleep. */
  predicate Legal(s: System, e: Event) {
    match e
    case Tick => !s.needResched
    case Sleep(to, _) => s.current != 0 && !to.Running?
    case _ => true
  }

  function Step(s: System, e: Event): System
    requires s.current < |s.tasks|
  {
    match e
    case Tick => Ticked(s)
    case Alarm => s.(needResched := true)
    case Wake(i) => WokenUp(s, i)
    case Sleep(to, ready) => Scheduled(s.tasks[s.current := s.tasks[s.current].(state := to)], ready)
    case Schedule(ready) => Scheduled(s.tasks, ready)
  }

  /** do_timer's part (kernel/sched.c:384-387). */
  function Ticked(s: System): System
    requires s.current < |s.tasks|
  {
    var t := s.tasks[s.current];
    if s.current == 0 || t.counter <= 1 then
      s.(tasks := s.tasks[s.current := t.(counter := 0)], needResched := true)
    else
      s.(tasks := s.tasks[s.current := t.(counter := t.counter - 1)])
  }

  /** wake_up on one sleeper (kernel/sched.c:189-196). */
  function WokenUp(s: System, i: nat): System
    requires s.current < |s.tasks|
  {
    if i < |s.tasks| && (s.tasks[i].state.Interruptible? || s.tasks[i].state.Uninterruptible?) then
      s.(tasks := s.tasks[i := s.tasks[i].(state := Running)],
         needResched := s.needResched || s.tasks[i].counter > s.tasks[s.current].counter)
    else s
  }

  /** A sleeper that is woken up runs, and need_resched is set if it has more ticks left than the current task; a task
      that goes to sleep leaves the choice to schedule. */
  lemma EventsDo(s: System, e: Event)
    requires s.current < |s.tasks|
    ensures var s' := Step(s, e);
      match e
      case Alarm => s' == s.(needResched := true)
      case Wake(i) =>
        var asleep := i < |s.tasks| && (s.tasks[i].state.Interruptible? || s.tasks[i].state.Uninterruptible?);
        && s'.current == s.current && |s'.tasks| == |s.tasks|
        && (s'.needResched <==> s.needResched || (asleep && s.tasks[i].counter > s.tasks[s.current].counter))
        && forall j :: 0 <= j < |s.tasks| ==>
             s'.tasks[j] == if j == i && asleep then s.tasks[j].(state := Running) else s.tasks[j]
      case Sleep(to, ready) => Chooses(s.tasks[s.current := s.tasks[s.current].(state := to)], ready, s')
      case Schedule(ready) => Chooses(s.tasks, ready, s')
      case Tick => true
  {
    match e
    case Sleep(to, ready) => ScheduledChooses(s.tasks[s.current := s.tasks[s.current].(state := to)], ready);
    case Schedule(ready) => ScheduledChooses(s.tasks, ready);
    case _ =>
  }

  // ---- what every step keeps

  ghost predicate Charged(t: Task) {
    t.priority >= 1 && t.counter < 2 * t.priority
  }

  ghost predicate Tasks(tasks: seq<Task>) {
    tasks != [] && tasks[0].state.Running? && forall i :: 0 < i < |tasks| ==> Charged(tasks[i])
  }

  /** Counters stay below twice the priority; the current task has ticks left or is about to be replaced; and idle,
      unless about to be replaced, lets no task with ticks left wait for longer than one tick. */
  ghost predicate Inv(s: System) {
    && Tasks(s.tasks) && s.current < |s.tasks|
    && (s.current != 0 ==> s.tasks[s.current].state.Running?)
    && (s.current != 0 && !s.needResched ==> s.tasks[s.current].counter > 0)
    && (s.current == 0 && !s.needResched ==>
        forall i :: Runnable(s.tasks, i) && s.tasks[i].counter > 0 ==> s.tasks[0].counter > 0)
  }

  lemma WokenTasks(tasks: seq<Task>, ready: set<nat>)
    requires Tasks(tasks)
    ensures Tasks(Woken(tasks, ready))
  {
    var t := Woken(tasks, ready);
    forall i | 0 < i < |t|
      ensures Charged(t[i])
    {
      assert Charged(tasks[i]);
    }
  }

  lemma RechargedTasks(tasks: seq<Task>)
    requires Tasks(tasks)
    ensures Tasks(Recharged(tasks)) && forall i :: 0 < i < |tasks| ==> Recharged(tasks)[i].counter > 0
  {
    var t := Recharged(tasks);
    forall i | 0 < i < |t|
      ensures Charged(t[i]) && t[i].counter > 0
    {
      assert Charged(tasks[i]);
    }
  }

  /** schedule chooses idle exactly when nothing can run, recharges only when nothing that can run has ticks left,
      and its choice has ticks left. */
  lemma ScheduledIs(tasks: seq<Task>, ready: set<nat>)
    requires Tasks(tasks)
    ensures Inv(Scheduled(tasks, ready))
    ensures Scheduled(tasks, ready).current == 0 <==> NoneRunnable(Woken(tasks, ready))
    ensures Recharges(Woken(tasks, ready)) <==> !NoneRunnable(Woken(tasks, ready)) && AllSpent(Woken(tasks, ready))
  {
    var t := Woken(tasks, ready);
    WokenTasks(tasks, ready);
    RechargedTasks(t);
    BestFacts(t);
    hide Best, NoneRunnable, AllSpent, Woken, Recharged;
    var s := Scheduled(tasks, ready);
    if s.current == 0 {
      NoneToRun(s.tasks, t);
    }
  }

  lemma NoneToRun(u: seq<Task>, t: seq<Task>)
    requires NoneRunnable(t) && u == t
    ensures forall i :: !Runnable(u, i)
  {
  }

  lemma BestFacts(t: seq<Task>)
    requires Tasks(t)
    ensures Best(t, |t|).1 < |t| && t[Best(t, |t|).1].state.Running?
    ensures Best(t, |t|).1 == 0 <==> NoneRunnable(t)
    ensures Recharges(t) <==> !NoneRunnable(t) && AllSpent(t)
    ensures Best(t, |t|).1 == 0 || t[Best(t, |t|).1].counter == Best(t, |t|).0
  {
    BestIs(t, |t|);
    hide Best;
    var b := Best(t, |t|);
    if b.0 != -1 {
      assert Runnable(t, b.1);
    }
  }

  lemma SleepTasks(s: System, to: State)
    requires Inv(s) && s.current != 0
    ensures Tasks(s.tasks[s.current := s.tasks[s.current].(state := to)])
  {
    assert Charged(s.tasks[s.current]);
  }

  lemma InvKept(s: System, e: Event)
    requires Inv(s) && Legal(s, e)
    ensures Inv(Step(s, e)) && |Step(s, e).tasks| == |s.tasks|
  {
    hide Best;
    match e
    case Tick =>
      assert s.current != 0 ==> Charged(s.tasks[s.current]);
    case Alarm =>
    case Wake(i) =>
      WakeKept(s, i);
    case Sleep(to, ready) =>
      SleepTasks(s, to);
      ScheduledIs(s.tasks[s.current := s.tasks[s.current].(state := to)], ready);
    case Schedule(ready) =>
      ScheduledIs(s.tasks, ready);
  }

  lemma WakeKept(s: System, i: nat)
    requires Inv(s)
    ensures Inv(WokenUp(s, i))
  {
    var s' := WokenUp(s, i);
    if i < |s.tasks| && s' != s {
      assert i > 0;
      assert Charged(s.tasks[i]);
    }
  }

  // ---- how long a task can wait

  function Sum(tasks: seq<Task>, n: nat): nat
    requires n <= |tasks|
  {
    if n <= 1 then 0 else Sum(tasks, n - 1) + tasks[n - 1].counter
  }

  function Priorities(tasks: seq<Task>, n: nat): nat
    requires n <= |tasks|
  {
    if n <= 1 then 0 else Priorities(tasks, n - 1) + tasks[n - 1].priority
  }

  ghost predicate SameBudget(t: seq<Task>, u: seq<Task>) {
    |t| == |u| && forall i :: 0 <= i < |t| ==> t[i].counter == u[i].counter && t[i].priority == u[i].priority
  }

  lemma {:induction false} SameSums(t: seq<Task>, u: seq<Task>, n: nat)
    requires SameBudget(t, u) && n <= |t|
    ensures Sum(t, n) == Sum(u, n) && Priorities(t, n) == Priorities(u, n)
  {
    if n > 1 {
      SameSums(t, u, n - 1);
    }
  }

  lemma {:induction false} OneTick(t: seq<Task>, i: nat, x: Task, n: nat)
    requires n <= |t| && i < |t| && x.priority == t[i].priority
    ensures Sum(t[i := x], n) == Sum(t, n) + (if 0 < i < n then x.counter - t[i].counter else 0)
    ensures Priorities(t[i := x], n) == Priorities(t, n)
  {
    if n > 1 {
      OneTick(t, i, x, n - 1);
    }
  }

  lemma {:induction false} RechargedSum(t: seq<Task>, n: nat)
    requires Tasks(t) && n <= |t|
    ensures Sum(Recharged(t), n) <= 2 * Priorities(t, n)
    ensures Priorities(Recharged(t), n) == Priorities(t, n)
  {
    if n > 1 {
      RechargedSum(t, n - 1);
      assert Charged(t[n - 1]);
    }
  }

  lemma {:induction false} SumHas(t: seq<Task>, n: nat, p: nat)
    requires 0 < p < n <= |t|
    ensures t[p].counter <= Sum(t, n)
  {
    if p < n - 1 {
      SumHas(t, n - 1, p);
    }
  }

  /** At most how many ticks task p, which can run, still waits: those of all tasks, one if idle is running, and,
      when p has none left, those that a recharge will hand out. */
  function Wait(s: System, p: nat): nat
    requires p < |s.tasks|
  {
    Sum(s.tasks, |s.tasks|) + (if s.current == 0 && !s.needResched then 1 else 0)
      + if s.tasks[p].counter == 0 then 2 * Priorities(s.tasks, |s.tasks|) else 0
  }

  predicate Waits(s: System, p: nat) {
    Runnable(s.tasks, p) && s.current != p
  }

  predicate RechargesIn(s: System, e: Event)
    requires s.current < |s.tasks|
  {
    match e
    case Sleep(to, ready) => Recharges(Woken(s.tasks[s.current := s.tasks[s.current].(state := to)], ready))
    case Schedule(ready) => Recharges(Woken(s.tasks, ready))
    case _ => false
  }

  lemma ScheduleWait(tasks: seq<Task>, ready: set<nat>, p: nat, s: System)
    requires Tasks(tasks) && Runnable(tasks, p) && SameBudget(s.tasks, tasks)
    ensures var s' := Scheduled(tasks, ready);
            Runnable(s'.tasks, p) && |s'.tasks| == |tasks| && Wait(s', p) <= Wait(s, p)
    ensures if Recharges(Woken(tasks, ready)) then tasks[p].counter == 0 && Scheduled(tasks, ready).tasks[p].counter > 0
      else Scheduled(tasks, ready).tasks[p].counter == tasks[p].counter
  {
    hide Best;
    var t := Woken(tasks, ready);
    assert Runnable(t, p) && t[p].counter == tasks[p].counter;
    assert SameBudget(s.tasks, t);
    ScheduledIs(tasks, ready);
    WokenTasks(tasks, ready);
    hide Woken, Tasks, SameBudget, Recharged, Sum, Priorities;
    Spared(t, p, s);
    Refilled(t, p, s);
  }

  lemma Spared(t: seq<Task>, p: nat, s: System)
    requires SameBudget(s.tasks, t) && Runnable(t, p)
    ensures forall k | 0 < k :: Wait(System(t, k, false), p) <= Wait(s, p)
  {
    SameSums(s.tasks, t, |t|);
  }

  lemma Refilled(t: seq<Task>, p: nat, s: System)
    requires Tasks(t) && SameBudget(s.tasks, t) && Runnable(t, p)
    ensures Runnable(Recharged(t), p) && Recharged(t)[p].counter > 0 && !NoneRunnable(t)
    ensures AllSpent(t) ==>
      t[p].counter == 0 && forall k | 0 < k :: Wait(System(Recharged(t), k, false), p) <= Wait(s, p)
  {
    RechargedTasks(t);
    RechargedSum(t, |t|);
    SameSums(s.tasks, t, |t|);
  }

  lemma WaitStep(s: System, e: Event, p: nat)
    requires Inv(s) && Legal(s, e) && Waits(s, p)
    ensures var s' := Step(s, e);
      |s'.tasks| == |s.tasks| && Runnable(s'.tasks, p) && Wait(s', p) + (if e.Tick? then 1 else 0) <= Wait(s, p)
    ensures if RechargesIn(s, e) then s.tasks[p].counter == 0 && Step(s, e).tasks[p].counter > 0
      else Step(s, e).tasks[p].counter == s.tasks[p].counter
  {
    hide Best;
    match e
    case Tick =>
      var x := Ticked(s).tasks[s.current];
      OneTick(s.tasks, s.current, x, |s.tasks|);
    case Alarm =>
    case Wake(i) =>
      if i < |s.tasks| {
        OneTick(s.tasks, i, s.tasks[i].(state := Running), |s.tasks|);
      }
    case Sleep(to, ready) =>
      SleepTasks(s, to);
      ScheduleWait(s.tasks[s.current := s.tasks[s.current].(state := to)], ready, p, s);
    case Schedule(ready) =>
      ScheduleWait(s.tasks, ready, p, s);
  }

  // ---- runs

  /** A run of legal steps in which p waits all the time. */
  ghost predicate WaitsThrough(s: System, es: seq<Event>, p: nat)
    requires Inv(s)
    decreases |es|
  {
    Waits(s, p) && (es == [] || (Legal(s, es[0]) && (InvKept(s, es[0]); WaitsThrough(Step(s, es[0]), es[1..], p))))
  }

  function Ticks(es: seq<Event>): nat {
    if es == [] then 0 else (if es[0].Tick? then 1 else 0) + Ticks(es[1..])
  }

  ghost function RechargeCount(s: System, es: seq<Event>, p: nat): nat
    requires Inv(s) && WaitsThrough(s, es, p)
    decreases |es|
  {
    if es == [] then 0
    else
      InvKept(s, es[0]);
      (if RechargesIn(s, es[0]) then 1 else 0) + RechargeCount(Step(s, es[0]), es[1..], p)
  }

  /** No task starves: one that can run, and is not chosen, waits a bounded number of ticks; it is recharged at
      most once in that time, and not at all if it has ticks left. */
  lemma {:induction false} NoStarvation(s: System, es: seq<Event>, p: nat)
    requires Inv(s) && WaitsThrough(s, es, p)
    ensures Ticks(es) + s.tasks[p].counter <= Wait(s, p)
    ensures RechargeCount(s, es, p) <= if s.tasks[p].counter > 0 then 0 else 1
    decreases |es|
  {
    if es == [] {
      SumHas(s.tasks, |s.tasks|, p);
    } else {
      var s' := Step(s, es[0]);
      InvKept(s, es[0]);
      WaitStep(s, es[0], p);
      NoStarvation(s', es[1..], p);
    }
  }

  /** A task with ticks left runs before the next recharge, within as many ticks as all counters hold. */
  lemma RunsBeforeRecharge(s: System, es: seq<Event>, p: nat)
    requires Inv(s) && WaitsThrough(s, es, p) && s.tasks[p].counter > 0
    ensures RechargeCount(s, es, p) == 0
    ensures Ticks(es) + s.tasks[p].counter <= s.tasks[0].counter + Sum(s.tasks, |s.tasks|)
  {
    NoStarvation(s, es, p);
  }

  // ---- the code

  class Kernel {
    var s: System

    constructor (s: System)
      ensures this.s == s
    {
      this.s := s;
    }

    /** schedule (kernel/sched.c:121-164). */
    method Schedule(ready: set<nat>)
      requires s.tasks != []
      modifies this
      ensures s == Scheduled(old(s.tasks), ready)
      ensures Chooses(old(s.tasks), ready, s)
    {
      ScheduledChooses(s.tasks, ready);
      var tasks := WakeReady(s.tasks, ready);
      var c, next := Choose(tasks);
      if c == 0 {
        tasks := Recharge(tasks);
      }
      s := System(tasks, next, false);
    }

    /** do_timer's accounting of the current task (kernel/sched.c:384-387): of a sound system, one tick less is left in
        all if a task other than idle was running, and the task will be replaced exactly when that was its last. */
    method DoTimer()
      requires s.current < |s.tasks|
      modifies this
      ensures s == Step(old(s), Tick)
      ensures s.current == old(s.current) && |s.tasks| == |old(s.tasks)|
      ensures forall i :: 0 <= i < |s.tasks| && i != s.current ==> s.tasks[i] == old(s.tasks)[i]
      ensures s.tasks[s.current].state == old(s.tasks)[s.current].state
      ensures old(Inv(s)) && !old(s.needResched) ==>
        && Inv(s)
        && Sum(s.tasks, |s.tasks|) == Sum(old(s.tasks), |s.tasks|) - (if s.current == 0 then 0 else 1)
        && (s.needResched <==> s.current == 0 || s.tasks[s.current].counter == 0)
    {
      var t := s.tasks[s.current];
      if Inv(s) && !s.needResched {
        InvKept(s, Tick);
        OneTick(s.tasks, s.current, Ticked(s).tasks[s.current], |s.tasks|);
      }
      if s.current == 0 || t.counter - 1 <= 0 {
        s := s.(tasks := s.tasks[s.current := t.(counter := 0)], needResched := true);
      } else {
        s := s.(tasks := s.tasks[s.current := t.(counter := t.counter - 1)]);
      }
    }
  }

  method WakeReady(tasks: seq<Task>, ready: set<nat>) returns (t: seq<Task>)
    ensures t == Woken(tasks, ready)
  {
    ghost var w := Woken(tasks, ready);
    hide Woken;
    t := tasks;
    var p := 1;
    while p < |t|
      invariant 1 <= p && |t| == |tasks| == |w|
      invariant forall j {:trigger t[j]} :: 0 <= j < |t| ==> t[j] == if j < p then w[j] else tasks[j]
    {
      if t[p].state.Interruptible? && p in ready {
        t := t[p := t[p].(state := Running)];
      }
      p := p + 1;
    }
  }

  method Choose(tasks: seq<Task>) returns (c: int, next: nat)
    requires tasks != []
    ensures (c, next) == Best(tasks, |tasks|) && IsBest(tasks, |tasks|, c, next)
  {
    c, next := -1, 0;
    var p := 1;
    while p < |tasks|
      invariant 1 <= p <= |tasks| && (c, next) == Best(tasks, p)
    {
      if tasks[p].state.Running? && tasks[p].counter > c {
        c, next := tasks[p].counter, p;
      }
      p := p + 1;
    }
    BestIs(tasks, |tasks|);
  }

  method Recharge(tasks: seq<Task>) returns (t: seq<Task>)
    ensures t == Recharged(tasks)
  {
    t := tasks;
    var p := 1;
    while p < |t|
      invariant 1 <= p && |t| == |tasks|
      invariant forall j :: 0 <= j < p && j < |t| ==> t[j] == Recharged(tasks)[j]
      invariant forall j :: p <= j < |t| ==> t[j] == tasks[j]
    {
      t := t[p := t[p].(counter := t[p].counter / 2 + t[p].priority)];
      p := p + 1;
    }
  }
}
