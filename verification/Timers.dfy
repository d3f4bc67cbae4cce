/** The timer list (kernel/sched.c:262-310, 415-424): each timer holds the ticks left after the one before it. */
module Timers {
  /** An entry of the list; `expires` counts from the entry before. */
  datatype Timer = Timer(id: nat, expires: nat)

  /** What an entry means: the timer runs in the tick after `due` others. */
  datatype Pending = Pending(id: nat, due: nat)

  /** The meaning of a list, in the order of the list. */
  function Due(l: seq<Timer>, base: nat): seq<Pending> {
    if l == [] then []
    else [Pending(l[0].id, base + l[0].expires)] + Due(l[1..], base + l[0].expires)
  }

  ghost predicate Absent(ps: seq<Pending>, id: nat) {
    forall q :: q in ps ==> q.id != id
  }

  ghost predicate NoSooner(ps: seq<Pending>, due: nat) {
    forall q :: q in ps ==> q.due >= due
  }

  ghost predicate Sorted(ps: seq<Pending>) {
    ps == [] || (NoSooner(ps[1..], ps[0].due) && Sorted(ps[1..]))
  }

  ghost predicate Unique(ps: seq<Pending>) {
    ps == [] || (Absent(ps[1..], ps[0].id) && Unique(ps[1..]))
  }

  /** Whatever the deltas, the list is in order of expiry. */
  lemma {:induction false} DueSorted(l: seq<Timer>, base: nat)
    ensures NoSooner(Due(l, base), base) && Sorted(Due(l, base))
  {
    if l != [] {
      DueSorted(l[1..], base + l[0].expires);
      assert Due(l, base)[1..] == Due(l[1..], base + l[0].expires);
    }
  }

  /** Deltas are determined by what they mean. */
  lemma {:induction false} DueInjective(l: seq<Timer>, m: seq<Timer>, base: nat)
    requires Due(l, base) == Due(m, base)
    ensures l == m
  {
    if l != [] && m != [] {
      var p, q := Due(l, base), Due(m, base);
      assert p[0] == q[0] && p[1..] == q[1..];
      assert l[0] == m[0];
      DueInjective(l[1..], m[1..], base + l[0].expires);
      assert l == [l[0]] + l[1..] && m == [m[0]] + m[1..];
    }
  }

  // ---- the simple form: a list of timers with their times

  /** After all that are due no later. */
  function Insert(ps: seq<Pending>, p: Pending): seq<Pending> {
    if ps == [] || ps[0].due > p.due then [p] + ps else [ps[0]] + Insert(ps[1..], p)
  }

  function Remove(ps: seq<Pending>, id: nat): seq<Pending> {
    if ps == [] then [] else if ps[0].id == id then ps[1..] else [ps[0]] + Remove(ps[1..], id)
  }

  /** The timers that run in a tick, in order. */
  function Fired(ps: seq<Pending>): seq<nat> {
    if ps == [] then [] else if ps[0].due == 0 then [ps[0].id] + Fired(ps[1..]) else Fired(ps[1..])
  }

  /** The timers left after a tick, each nearer by one. */
  function Ticked(ps: seq<Pending>): seq<Pending> {
    if ps == [] then []
    else if ps[0].due == 0 then Ticked(ps[1..])
    else [Pending(ps[0].id, ps[0].due - 1)] + Ticked(ps[1..])
  }

  lemma {:induction false} InsertHas(ps: seq<Pending>, p: Pending, q: Pending)
    ensures q in Insert(ps, p) <==> q == p || q in ps
  {
    if !(ps == [] || ps[0].due > p.due) {
      InsertHas(ps[1..], p, q);
      assert ps == [ps[0]] + ps[1..];
    }
  }

  lemma {:induction false} RemoveHas(ps: seq<Pending>, id: nat, q: Pending)
    requires Unique(ps)
    ensures q in Remove(ps, id) <==> q in ps && q.id != id
  {
    if ps != [] {
      assert ps == [ps[0]] + ps[1..];
      if ps[0].id != id {
        RemoveHas(ps[1..], id, q);
      }
    }
  }

  lemma {:induction false} TickedHas(ps: seq<Pending>, q: Pending)
    ensures q in Ticked(ps) <==> Pending(q.id, q.due + 1) in ps
  {
    if ps != [] {
      TickedHas(ps[1..], q);
      assert ps == [ps[0]] + ps[1..];
    }
  }

  lemma {:induction false} FiredHas(ps: seq<Pending>, id: nat)
    ensures id in Fired(ps) <==> Pending(id, 0) in ps
  {
    if ps != [] {
      FiredHas(ps[1..], id);
      assert ps == [ps[0]] + ps[1..];
    }
  }

  lemma {:induction false} InsertUnique(ps: seq<Pending>, p: Pending)
    requires Unique(ps) && Absent(ps, p.id)
    ensures Unique(Insert(ps, p))
  {
    var qs := Insert(ps, p);
    if ps == [] || ps[0].due > p.due {
      assert qs[1..] == ps;
    } else {
      InsertUnique(ps[1..], p);
      assert qs[1..] == Insert(ps[1..], p);
      forall q | q in qs[1..]
        ensures q.id != ps[0].id
      {
        InsertHas(ps[1..], p, q);
      }
    }
  }

  lemma {:induction false} RemoveUnique(ps: seq<Pending>, id: nat)
    requires Unique(ps)
    ensures Unique(Remove(ps, id))
  {
    if ps != [] && ps[0].id != id {
      var rest := Remove(ps[1..], id);
      RemoveUnique(ps[1..], id);
      assert Remove(ps, id)[1..] == rest;
      forall q | q in rest
        ensures q.id != ps[0].id
      {
        RemoveHas(ps[1..], id, q);
      }
    }
  }

  lemma {:induction false} TickedUnique(ps: seq<Pending>)
    requires Unique(ps)
    ensures Unique(Ticked(ps))
  {
    if ps != [] {
      TickedUnique(ps[1..]);
      if ps[0].due > 0 {
        var rest := Ticked(ps[1..]);
        assert Ticked(ps)[1..] == rest;
        forall q | q in rest
          ensures q.id != ps[0].id
        {
          TickedHas(ps[1..], q);
        }
      }
    }
  }

  /** Deleting what was just added leaves what there was. */
  lemma {:induction false} InsertRemove(ps: seq<Pending>, p: Pending)
    requires Absent(ps, p.id)
    ensures Remove(Insert(ps, p), p.id) == ps
  {
    if !(ps == [] || ps[0].due > p.due) {
      InsertRemove(ps[1..], p);
      assert Insert(ps, p)[1..] == Insert(ps[1..], p);
      assert ps[0] in ps;
    }
  }

  // ---- the list as the code keeps it

  /** add_timer's effect. */
  function Added(l: seq<Timer>, id: nat, n: nat): seq<Timer> {
    if l == [] then [Timer(id, n)]
    else if l[0].expires > n then [Timer(id, n), Timer(l[0].id, l[0].expires - n)] + l[1..]
    else [l[0]] + Added(l[1..], id, n - l[0].expires)
  }

  /** It inserts the timer and changes nobody's time. */
  lemma {:induction false} AddedMeans(l: seq<Timer>, id: nat, n: nat, base: nat)
    ensures Due(Added(l, id, n), base) == Insert(Due(l, base), Pending(id, base + n))
  {
    if l != [] {
      var a := Added(l, id, n);
      if l[0].expires > n {
        assert a[1..][1..] == l[1..] && a[1..][0] == Timer(l[0].id, l[0].expires - n);
      } else {
        AddedMeans(l[1..], id, n - l[0].expires, base + l[0].expires);
        assert a[1..] == Added(l[1..], id, n - l[0].expires);
        assert Due(l, base)[1..] == Due(l[1..], base + l[0].expires);
      }
    }
  }

  /** del_timer's effect: the next timer takes over the deleted one's ticks. */
  function Deleted(l: seq<Timer>, id: nat): seq<Timer> {
    if l == [] then []
    else if l[0].id == id then
      if |l| == 1 then [] else [Timer(l[1].id, l[1].expires + l[0].expires)] + l[2..]
    else [l[0]] + Deleted(l[1..], id)
  }

  lemma {:induction false} DeletedMeans(l: seq<Timer>, id: nat, base: nat)
    ensures Due(Deleted(l, id), base) == Remove(Due(l, base), id)
  {
    if l != [] {
      var d := Due(l, base);
      assert d[1..] == Due(l[1..], base + l[0].expires);
      if l[0].id == id {
        if |l| > 1 {
          assert l[1..][1..] == l[2..];
        }
      } else {
        DeletedMeans(l[1..], id, base + l[0].expires);
        assert Deleted(l, id)[1..] == Deleted(l[1..], id);
      }
    }
  }

  /** Adding a timer and deleting it restores the list, delta for delta. */
  lemma AddDelete(l: seq<Timer>, id: nat, n: nat)
    requires Absent(Due(l, 0), id)
    ensures Deleted(Added(l, id, n), id) == l
  {
    AddedMeans(l, id, n, 0);
    DeletedMeans(Added(l, id, n), id, 0);
    InsertRemove(Due(l, 0), Pending(id, n));
    DueInjective(Deleted(Added(l, id, n), id), l, 0);
  }

  /** The timers do_timer runs: those at the head with nothing left. */
  function Runs(l: seq<Timer>): seq<nat> {
    if l == [] || l[0].expires > 0 then [] else [l[0].id] + Runs(l[1..])
  }

  /** The list after a tick: expired timers gone, the next one nearer. */
  function After(l: seq<Timer>): seq<Timer> {
    if l == [] then []
    else if l[0].expires == 0 then After(l[1..])
    else [Timer(l[0].id, l[0].expires - 1)] + l[1..]
  }

  lemma {:induction false} AfterMeans(l: seq<Timer>)
    ensures Due(After(l), 0) == Ticked(Due(l, 0)) && Runs(l) == Fired(Due(l, 0))
  {
    if l != [] {
      assert Due(l, 0)[1..] == Due(l[1..], l[0].expires);
      if l[0].expires == 0 {
        AfterMeans(l[1..]);
      } else {
        Later(l[1..], l[0].expires);
        assert After(l)[1..] == l[1..];
      }
    }
  }

  lemma {:induction false} Later(l: seq<Timer>, base: nat)
    requires base > 0
    ensures Ticked(Due(l, base)) == Due(l, base - 1) && Fired(Due(l, base)) == []
  {
    if l != [] {
      Later(l[1..], base + l[0].expires);
      assert Due(l, base)[1..] == Due(l[1..], base + l[0].expires);
    }
  }

  // ---- runs

  datatype Event = Add(id: nat, expires: nat) | Del(id: nat) | Tick

  function Step(l: seq<Timer>, e: Event): seq<Timer> {
    match e
    case Add(id, n) => Added(l, id, n)
    case Del(id) => Deleted(l, id)
    case Tick => After(l)
  }

  /** The same on times. */
  function StepDue(ps: seq<Pending>, e: Event): seq<Pending> {
    match e
    case Add(id, n) => Insert(ps, Pending(id, n))
    case Del(id) => Remove(ps, id)
    case Tick => Ticked(ps)
  }

  /** A timer in the list is not added again. */
  ghost predicate Allowed(ps: seq<Pending>, e: Event) {
    e.Add? ==> Absent(ps, e.id)
  }

  ghost predicate Legal(l: seq<Timer>, es: seq<Event>)
    decreases |es|
  {
    es == [] || (Allowed(Due(l, 0), es[0]) && Legal(Step(l, es[0]), es[1..]))
  }

  /** What runs in each tick of a run. */
  function Log(l: seq<Timer>, es: seq<Event>): seq<seq<nat>>
    decreases |es|
  {
    if es == [] then []
    else if es[0].Tick? then [Runs(l)] + Log(After(l), es[1..])
    else Log(Step(l, es[0]), es[1..])
  }

  predicate Names(e: Event, id: nat) {
    !e.Tick? && e.id == id
  }

  ghost predicate Untouched(es: seq<Event>, id: nat) {
    es == [] || (!Names(es[0], id) && Untouched(es[1..], id))
  }

  lemma StepMeans(l: seq<Timer>, e: Event)
    requires Allowed(Due(l, 0), e) && Unique(Due(l, 0))
    ensures Due(Step(l, e), 0) == StepDue(Due(l, 0), e) && Unique(Due(Step(l, e), 0))
  {
    hide Unique, Absent, Due, Insert, Remove, Ticked;
    match e
    case Add(id, n) =>
      AddedMeans(l, id, n, 0);
      InsertUnique(Due(l, 0), Pending(id, n));
    case Del(id) =>
      DeletedMeans(l, id, 0);
      RemoveUnique(Due(l, 0), id);
    case Tick =>
      AfterMeans(l);
      TickedUnique(Due(l, 0));
  }

  /** A step that does not name a timer leaves it its time. */
  lemma Kept(ps: seq<Pending>, e: Event, p: Pending)
    requires Unique(ps) && !Names(e, p.id) && !e.Tick?
    ensures p in StepDue(ps, e) <==> p in ps
  {
    hide Unique;
    match e
    case Add(id, n) => InsertHas(ps, Pending(id, n), p);
    case Del(id) => RemoveHas(ps, id, p);
  }

  lemma AbsentStays(ps: seq<Pending>, e: Event, id: nat)
    requires Unique(ps) && Absent(ps, id) && !Names(e, id)
    ensures Absent(StepDue(ps, e), id)
  {
    hide Unique;
    forall q | q in StepDue(ps, e)
      ensures q.id != id
    {
      match e
      case Add(a, n) => InsertHas(ps, Pending(a, n), q);
      case Del(a) => RemoveHas(ps, a, q);
      case Tick => TickedHas(ps, q);
    }
  }

  /** Once run, a timer is gone. */
  lemma GoneAfter(ps: seq<Pending>, id: nat)
    requires Unique(ps) && Pending(id, 0) in ps
    ensures Absent(Ticked(ps), id)
  {
    forall q | q in Ticked(ps)
      ensures q.id != id
    {
      TickedHas(ps, q);
      OneTime(ps, id, 0, q.due + 1);
    }
  }

  lemma {:induction false} OneTime(ps: seq<Pending>, id: nat, d: nat, e: nat)
    requires Unique(ps) && Pending(id, d) in ps && d != e
    ensures Pending(id, e) !in ps
  {
    assert ps == [ps[0]] + ps[1..];
    if ps[0].id != id {
      OneTime(ps[1..], id, d, e);
    }
  }

  /** The timer runs in tick n of a run, if it comes to that, and in no other. */
  ghost predicate RunsAt(log: seq<seq<nat>>, id: nat, n: nat) {
    forall t :: 0 <= t < |log| ==> (id in log[t] <==> t == n)
  }

  ghost predicate NeverRuns(log: seq<seq<nat>>, id: nat) {
    forall t :: 0 <= t < |log| ==> id !in log[t]
  }

  /** A timer that is not in the list never runs. */
  lemma {:induction false} AbsentNeverRuns(l: seq<Timer>, es: seq<Event>, id: nat)
    requires Unique(Due(l, 0)) && Legal(l, es) && Untouched(es, id) && Absent(Due(l, 0), id)
    ensures NeverRuns(Log(l, es), id)
    decreases |es|
  {
    if es != [] {
      hide Unique, Absent, Due, Step, StepDue, NeverRuns;
      StepMeans(l, es[0]);
      AbsentStays(Due(l, 0), es[0], id);
      AbsentNeverRuns(Step(l, es[0]), es[1..], id);
      if es[0].Tick? {
        RunsNone(l, id);
        LogNone(Runs(l), Log(After(l), es[1..]), id);
      }
    } else {
      assert Log(l, es) == [];
    }
  }

  lemma RunsNone(l: seq<Timer>, id: nat)
    ensures Step(l, Tick) == After(l)
    ensures Absent(Due(l, 0), id) ==> id !in Runs(l)
  {
    AfterMeans(l);
    FiredHas(Due(l, 0), id);
  }

  lemma LogNone(now: seq<nat>, rest: seq<seq<nat>>, id: nat)
    requires id !in now && NeverRuns(rest, id)
    ensures NeverRuns([now] + rest, id)
  {
  }

  lemma LogNow(now: seq<nat>, rest: seq<seq<nat>>, id: nat)
    requires id in now && NeverRuns(rest, id)
    ensures RunsAt([now] + rest, id, 0)
  {
  }

  lemma LogLater(now: seq<nat>, rest: seq<seq<nat>>, id: nat, n: nat)
    requires id !in now && RunsAt(rest, id, n)
    ensures RunsAt([now] + rest, id, n + 1)
  {
  }

  /** A timer due in n ticks that nobody deletes runs in the tick after those n and in no other, whatever else is
      added and deleted meanwhile. */
  lemma {:induction false} RunsOnTime(l: seq<Timer>, es: seq<Event>, id: nat, n: nat)
    requires Unique(Due(l, 0)) && Legal(l, es) && Untouched(es, id) && Pending(id, n) in Due(l, 0)
    ensures RunsAt(Log(l, es), id, n)
    decreases |es|, 0
  {
    if es == [] {
      assert Log(l, es) == [];
    } else {
      hide Unique, Absent, Due, Step, StepDue, RunsAt, NeverRuns;
      StepMeans(l, es[0]);
      if es[0].Tick? {
        RunsOnTimeTick(l, es[1..], id, n);
      } else {
        Kept(Due(l, 0), es[0], Pending(id, n));
        RunsOnTime(Step(l, es[0]), es[1..], id, n);
      }
    }
  }

  lemma {:induction false} RunsOnTimeTick(l: seq<Timer>, es: seq<Event>, id: nat, n: nat)
    requires Unique(Due(l, 0)) && Unique(Due(Step(l, Tick), 0)) && Legal(Step(l, Tick), es) && Untouched(es, id)
      && Pending(id, n) in Due(l, 0)
    ensures Step(l, Tick) == After(l) && RunsAt([Runs(l)] + Log(After(l), es), id, n)
    decreases |es|, 1
  {
    hide Unique, Absent, Due, RunsAt, NeverRuns, Legal, Log;
    var ps := Due(l, 0);
    AfterMeans(l);
    FiredHas(ps, id);
    if n == 0 {
      GoneAfter(ps, id);
      AbsentNeverRuns(After(l), es, id);
      LogNow(Runs(l), Log(After(l), es), id);
    } else {
      OneTime(ps, id, n, 0);
      TickedHas(ps, Pending(id, n - 1));
      RunsOnTime(After(l), es, id, n - 1);
      LogLater(Runs(l), Log(After(l), es), id, n - 1);
    }
  }

  /** A timer added with `expires` n runs on the (n+1)th tick that follows, unless deleted. */
  lemma AddedRunsOnTime(l: seq<Timer>, id: nat, n: nat, es: seq<Event>)
    requires Unique(Due(l, 0)) && Absent(Due(l, 0), id) && Legal(Added(l, id, n), es) && Untouched(es, id)
    ensures RunsAt(Log(Added(l, id, n), es), id, n)
  {
    hide Unique, Absent, Due, Legal, Untouched, RunsAt;
    StepMeans(l, Add(id, n));
    InsertHas(Due(l, 0), Pending(id, n), Pending(id, n));
    RunsOnTime(Added(l, id, n), es, id, n);
  }

  // ---- order

  /** All that ran, in order. */
  function Flat(log: seq<seq<nat>>): seq<nat> {
    if log == [] then [] else log[0] + Flat(log[1..])
  }

  ghost predicate Before(ps: seq<Pending>, a: nat, b: nat) {
    ps != [] && ((ps[0].id == a && !Absent(ps[1..], b)) || Before(ps[1..], a, b))
  }

  /** b does not run before a has. */
  ghost predicate NotFirst(ran: seq<nat>, a: nat, b: nat) {
    ran == [] || ran[0] == a || (ran[0] != b && NotFirst(ran[1..], a, b))
  }

  lemma {:induction false} NotFirstMeans(ran: seq<nat>, a: nat, b: nat)
    requires NotFirst(ran, a, b) && a != b
    ensures forall j :: 0 <= j < |ran| && ran[j] == b ==> exists i :: 0 <= i < j && ran[i] == a
  {
    if ran != [] && ran[0] != a {
      NotFirstMeans(ran[1..], a, b);
      forall j | 0 <= j < |ran| && ran[j] == b
        ensures exists i :: 0 <= i < j && ran[i] == a
      {
        assert ran[1..][j - 1] == b;
        var i :| 0 <= i < j - 1 && ran[1..][i] == a;
        assert ran[i + 1] == a;
      }
    }
  }

  /** A new timer goes behind exactly those that expire no later: ties run in the order they were added. */
  lemma {:induction false} TiesInOrder(ps: seq<Pending>, p: Pending, q: Pending)
    requires Sorted(ps) && Unique(ps) && Absent(ps, p.id) && q in ps
    ensures Before(Insert(ps, p), q.id, p.id) <==> q.due <= p.due
    ensures Before(Insert(ps, p), p.id, q.id) <==> q.due > p.due
  {
    var qs := Insert(ps, p);
    if ps[0].due > p.due {
      assert qs[1..] == ps && q in ps;
      NotBefore(ps, q.id, p.id);
      NotBefore(ps, p.id, q.id);
      assert !Absent(ps, q.id);
      assert ps == [ps[0]] + ps[1..];
    } else {
      var rest := ps[1..];
      assert qs[1..] == Insert(rest, p) && ps == [ps[0]] + rest && ps[0] in ps;
      InsertHas(rest, p, p);
      if q in rest {
        TiesInOrder(rest, p, q);
        assert ps[0].id != q.id;
      } else {
        assert !Absent(qs[1..], p.id);
        NotBeforeInsert(rest, p, q.id);
      }
    }
  }

  lemma {:induction false} NotBefore(ps: seq<Pending>, a: nat, b: nat)
    ensures Before(ps, a, b) ==> !Absent(ps, a) && !Absent(ps, b)
  {
    if ps != [] {
      NotBefore(ps[1..], a, b);
      assert ps == [ps[0]] + ps[1..];
    }
  }

  lemma NotBeforeInsert(ps: seq<Pending>, p: Pending, a: nat)
    requires Absent(ps, a) && p.id != a
    ensures !Before(Insert(ps, p), p.id, a)
  {
    NotBefore(Insert(ps, p), p.id, a);
    forall q | q in Insert(ps, p)
      ensures q.id != a
    {
      InsertHas(ps, p, q);
    }
  }

  lemma {:induction false} OrderAdd(ps: seq<Pending>, p: Pending, a: nat, b: nat)
    requires Before(ps, a, b)
    ensures Before(Insert(ps, p), a, b)
  {
    var qs := Insert(ps, p);
    if ps[0].due > p.due {
      assert qs[1..] == ps;
    } else {
      assert qs[1..] == Insert(ps[1..], p);
      if Before(ps[1..], a, b) {
        OrderAdd(ps[1..], p, a, b);
      } else {
        var q :| q in ps[1..] && q.id == b;
        InsertHas(ps[1..], p, q);
      }
    }
  }

  lemma {:induction false} OrderDel(ps: seq<Pending>, id: nat, a: nat, b: nat)
    requires Unique(ps) && Before(ps, a, b) && id != a && id != b
    ensures Before(Remove(ps, id), a, b)
  {
    if ps[0].id != id {
      assert Remove(ps, id)[1..] == Remove(ps[1..], id);
      if Before(ps[1..], a, b) {
        OrderDel(ps[1..], id, a, b);
      } else {
        var q :| q in ps[1..] && q.id == b;
        RemoveHas(ps[1..], id, q);
      }
    }
  }

  /** A tick keeps the order of two timers, or runs the first; and it does not run the second alone. */
  lemma {:induction false} OrderTick(ps: seq<Pending>, a: nat, b: nat)
    requires Sorted(ps) && Unique(ps) && Before(ps, a, b)
    ensures Before(Ticked(ps), a, b) || a in Fired(ps)
    ensures NotFirst(Fired(ps), a, b)
  {
    var rest := ps[1..];
    if Before(rest, a, b) {
      OrderTick(rest, a, b);
      NotBefore(rest, a, b);
    }
    if ps[0].due > 0 {
      OrderTickLater(ps, a, b);
    } else {
      assert Fired(ps)[1..] == Fired(rest);
    }
  }

  lemma {:induction false} OrderTickLater(ps: seq<Pending>, a: nat, b: nat)
    requires Sorted(ps) && Before(ps, a, b) && ps[0].due > 0
    requires Before(ps[1..], a, b) ==> Before(Ticked(ps[1..]), a, b) || a in Fired(ps[1..])
    ensures Before(Ticked(ps), a, b) && Fired(ps) == []
  {
    var rest := ps[1..];
    NoneFire(ps);
    assert Ticked(ps) == [Pending(ps[0].id, ps[0].due - 1)] + Ticked(rest) && Fired(ps) == Fired(rest);
    hide Ticked, Fired, Sorted, Absent, NoSooner;
    assert Ticked(ps)[1..] == Ticked(rest);
    if !Before(rest, a, b) {
      StillThere(rest, ps[0].due, b);
    }
  }

  lemma StillThere(ps: seq<Pending>, due: nat, id: nat)
    requires NoSooner(ps, due) && due > 0 && !Absent(ps, id)
    ensures !Absent(Ticked(ps), id)
  {
    var q :| q in ps && q.id == id;
    TickedHas(ps, Pending(id, q.due - 1));
  }

  lemma {:induction false} NoneFire(ps: seq<Pending>)
    requires ps != [] ==> ps[0].due > 0
    requires Sorted(ps)
    ensures Fired(ps) == []
  {
    if ps != [] {
      if |ps| > 1 {
        assert ps[1..][0] in ps[1..];
      }
      NoneFire(ps[1..]);
    }
  }

  lemma StepOrder(ps: seq<Pending>, e: Event, a: nat, b: nat)
    requires Unique(ps) && Before(ps, a, b) && !e.Tick? && !Names(e, a) && !Names(e, b)
    ensures Before(StepDue(ps, e), a, b)
  {
    hide Unique, Before;
    match e
    case Add(id, n) => OrderAdd(ps, Pending(id, n), a, b);
    case Del(id) => OrderDel(ps, id, a, b);
  }

  /** Timers run in the order of the list, that is by expiry and then by the time they were added. */
  lemma {:induction false} RunInOrder(l: seq<Timer>, es: seq<Event>, a: nat, b: nat)
    requires Unique(Due(l, 0)) && Legal(l, es) && Untouched(es, a) && Untouched(es, b) && Before(Due(l, 0), a, b)
    ensures NotFirst(Flat(Log(l, es)), a, b)
    decreases |es|, 0
  {
    if es == [] {
      assert Flat(Log(l, es)) == [];
    } else {
      hide Unique, Absent, Due, Step, StepDue, Before, NotFirst;
      StepMeans(l, es[0]);
      if es[0].Tick? {
        RunInOrderTick(l, es[1..], a, b);
        assert Log(l, es)[0] == Runs(l) && Log(l, es)[1..] == Log(After(l), es[1..]);
      } else {
        StepOrder(Due(l, 0), es[0], a, b);
        RunInOrder(Step(l, es[0]), es[1..], a, b);
      }
    }
  }

  lemma {:induction false} RunInOrderTick(l: seq<Timer>, es: seq<Event>, a: nat, b: nat)
    requires Unique(Due(l, 0)) && Unique(Due(Step(l, Tick), 0)) && Legal(Step(l, Tick), es)
    requires Untouched(es, a) && Untouched(es, b) && Before(Due(l, 0), a, b)
    ensures Step(l, Tick) == After(l) && NotFirst(Runs(l) + Flat(Log(After(l), es)), a, b)
    decreases |es|, 1
  {
    hide Unique, Absent, Due, Before, NotFirst, Legal, Log, Sorted, Untouched;
    DueSorted(l, 0);
    AfterMeans(l);
    OrderTick(Due(l, 0), a, b);
    if Before(Due(After(l), 0), a, b) {
      RunInOrder(After(l), es, a, b);
    }
    Joined(Runs(l), Flat(Log(After(l), es)), a, b);
  }

  lemma {:induction false} Joined(x: seq<nat>, y: seq<nat>, a: nat, b: nat)
    requires NotFirst(x, a, b) && (a in x || NotFirst(y, a, b))
    ensures NotFirst(x + y, a, b)
  {
    if x == [] {
      assert x + y == y;
    } else if x[0] != a {
      assert (x + y)[1..] == x[1..] + y;
      assert x == [x[0]] + x[1..];
      Joined(x[1..], y, a, b);
    }
  }

  // ---- the code

  lemma AddedAt(l: seq<Timer>, i: nat, id: nat, left: nat)
    requires i < |l|
    ensures l[i].expires <= left ==>
      l[..i] + Added(l[i..], id, left) == l[..i + 1] + Added(l[i + 1..], id, left - l[i].expires)
    ensures l[i].expires > left ==>
      l[..i] + Added(l[i..], id, left) == l[..i] + [Timer(id, left), Timer(l[i].id, l[i].expires - left)] + l[i + 1..]
  {
    var rest := l[i..];
    assert rest[0] == l[i] && rest[1..] == l[i + 1..];
    if l[i].expires <= left {
      var more := Added(rest[1..], id, left - l[i].expires);
      assert Added(rest, id, left) == [l[i]] + more;
      assert l[..i + 1] == l[..i] + [l[i]];
    }
  }

  lemma AddedLast(l: seq<Timer>, id: nat, left: nat)
    ensures l[..|l|] + Added(l[|l|..], id, left) == l + [Timer(id, left)]
  {
  }

  lemma DeletedAt(l: seq<Timer>, i: nat, id: nat)
    requires i < |l|
    ensures l[i].id != id ==> l[..i] + Deleted(l[i..], id) == l[..i + 1] + Deleted(l[i + 1..], id)
    ensures l[i].id == id && i + 1 == |l| ==> l[..i] + Deleted(l[i..], id) == l[..i]
    ensures l[i].id == id && i + 1 < |l| ==>
      l[..i] + Deleted(l[i..], id) == l[..i] + [Timer(l[i + 1].id, l[i + 1].expires + l[i].expires)] + l[i + 2..]
  {
    var rest := l[i..];
    assert rest[0] == l[i] && rest[1..] == l[i + 1..];
    if l[i].id != id {
      var more := Deleted(rest[1..], id);
      assert Deleted(rest, id) == [l[i]] + more;
      assert l[..i + 1] == l[..i] + [l[i]];
    } else if i + 1 < |l| {
      assert rest[2..] == l[i + 2..];
    }
  }

  lemma DueAt(l: seq<Timer>, i: nat, base: nat)
    requires i < |l|
    ensures Due(l[i..], base) == [Pending(l[i].id, base + l[i].expires)] + Due(l[i + 1..], base + l[i].expires)
  {
    assert l[i..][1..] == l[i + 1..];
  }

  lemma DeletedLast(l: seq<Timer>, id: nat, base: nat)
    ensures l[..|l|] + Deleted(l[|l|..], id) == l && Due(l[|l|..], base) == []
  {
  }
}
