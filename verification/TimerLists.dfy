/** The timer list as linked structures that are changed in place (kernel/sched.c:262-310, 415-424); `Timers` says what
    the list means. */
module TimerLists {
  import opened Timers

  class Node {
    const id: nat
    var expires: nat
    var next: Node?

    constructor (id: nat, expires: nat)
      ensures this.id == id && this.expires == expires && next == null
    {
      this.id, this.expires, next := id, expires, null;
    }
  }

  function At(c: seq<Node>, i: nat): Node? {
    if i < |c| then c[i] else null
  }

  /** The timers along a chain of nodes. */
  ghost function Read(c: seq<Node>): (l: seq<Timer>)
    reads c`expires
    ensures |l| == |c| && forall i {:trigger l[i]} :: 0 <= i < |c| ==> l[i] == Timer(c[i].id, c[i].expires)
  {
    if c == [] then [] else Read(c[..|c| - 1]) + [Timer(c[|c| - 1].id, c[|c| - 1].expires)]
  }

  ghost function Nexts(c: seq<Node>): (nx: seq<Node?>)
    reads c`next
    ensures |nx| == |c| && forall i {:trigger nx[i]} :: 0 <= i < |c| ==> nx[i] == c[i].next
  {
    if c == [] then [] else Nexts(c[..|c| - 1]) + [c[|c| - 1].next]
  }

  /** No two nodes of a chain have the same name. */
  ghost predicate Named(c: seq<Node>) {
    forall i, j {:trigger c[i], c[j]} :: 0 <= i < j < |c| ==> c[i].id != c[j].id
  }

  /** The nodes c with links nx are a list. */
  ghost predicate Linked(c: seq<Node>, nx: seq<Node?>) {
    Named(c) && |nx| == |c| && forall i {:trigger nx[i]} :: 0 <= i < |c| ==> nx[i] == At(c, i + 1)
  }

  /** The links after the one before position i leads to t. */
  function Led(nx: seq<Node?>, i: nat, t: Node?): seq<Node?>
    requires i <= |nx|
  {
    if i == 0 then nx else nx[i - 1 := t]
  }

  lemma LinkedAt(c: seq<Node>, nx: seq<Node?>, i: nat)
    requires Linked(c, nx) && i < |c|
    ensures nx[i] == At(c, i + 1) && forall j :: 0 <= j < |c| ==> (c[j] == c[i] <==> j == i)
  {
  }

  lemma Inserted(c: seq<Node>, nx: seq<Node?>, i: nat, t: Node)
    requires Linked(c, nx) && i <= |c| && forall n :: n in c ==> n.id != t.id
    ensures Linked(c[..i] + [t] + c[i..], Led(nx, i, t)[..i] + [At(c, i)] + nx[i..])
  {
  }

  lemma Unlinked(c: seq<Node>, nx: seq<Node?>, i: nat)
    requires Linked(c, nx) && i < |c|
    ensures Linked(c[..i] + c[i + 1..], Led(nx, i, nx[i])[..i] + nx[i + 1..])
    ensures c[i] !in c[..i] + c[i + 1..]
  {
    hide At;
    var d := c[..i] + c[i + 1..];
    forall j | 0 <= j < |d| ensures d[j] != c[i] { assert d[j] == c[if j < i then j else j + 1]; }
    AllLinked(c, nx, i);
  }

  lemma AllLinked(c: seq<Node>, nx: seq<Node?>, i: nat)
    requires Linked(c, nx) && i < |c|
    ensures Linked(c[..i] + c[i + 1..], Led(nx, i, nx[i])[..i] + nx[i + 1..])
  {
  }

  lemma Concat(a: seq<Node>, b: seq<Node>)
    ensures Nexts(a + b) == Nexts(a) + Nexts(b) && Read(a + b) == Read(a) + Read(b)
  {
    hide Nexts, Read;
    var c := a + b;
    forall i | 0 <= i < |c|
      ensures Nexts(c)[i] == (Nexts(a) + Nexts(b))[i] && Read(c)[i] == (Read(a) + Read(b))[i]
    {
    }
  }

  lemma Halves(c: seq<Node>, i: nat)
    requires i <= |c|
    ensures Nexts(c[..i]) == Nexts(c)[..i] && Nexts(c[i..]) == Nexts(c)[i..]
    ensures Read(c[..i]) == Read(c)[..i] && Read(c[i..]) == Read(c)[i..]
  {
    hide Nexts, Read;
    Concat(c[..i], c[i..]);
    assert c[..i] + c[i..] == c;
  }

  lemma HookedIn(c: seq<Node>, i: nat, t: Node)
    requires i <= |c|
    ensures Nexts(c[..i] + [t] + c[i..]) == Nexts(c)[..i] + [t.next] + Nexts(c)[i..]
    ensures Read(c[..i] + [t] + c[i..]) == Read(c)[..i] + [Timer(t.id, t.expires)] + Read(c)[i..]
  {
    Concat(c[..i] + [t], c[i..]);
    Concat(c[..i], [t]);
    Halves(c, i);
    assert Nexts([t]) == [t.next] && Read([t]) == [Timer(t.id, t.expires)];
    hide Nexts, Read;
  }

  lemma Parted(c: seq<Node>, i: nat)
    requires i < |c|
    ensures Nexts(c[..i] + c[i + 1..]) == Nexts(c)[..i] + Nexts(c)[i + 1..]
    ensures Read(c[..i] + c[i + 1..]) == Read(c)[..i] + Read(c)[i + 1..]
  {
    hide Nexts, Read;
    Concat(c[..i], c[i + 1..]);
    Halves(c, i);
    Halves(c, i + 1);
  }

  lemma LedTail(nx: seq<Node?>, i: nat, t: Node?)
    requires i <= |nx|
    ensures |Led(nx, i, t)| == |nx| && Led(nx, i, t)[i..] == nx[i..]
    ensures i < |nx| ==> Led(nx, i, t)[i + 1..] == nx[i + 1..]
  {
  }

  /** The timer at position i, if there is one, is given more ticks. */
  function Passed(l: seq<Timer>, i: nat, ticks: nat): seq<Timer> {
    if i < |l| then l[i := Timer(l[i].id, l[i].expires + ticks)] else l
  }

  /** Reading after one timer was changed. */
  lemma ReadSet(c: seq<Node>, l: seq<Timer>, i: nat)
    requires i < |c| == |l| && l[i].id == c[i].id
    requires forall j :: 0 <= j < |c| && j != i ==> l[j] == Timer(c[j].id, c[j].expires)
    ensures Read(c) == l[i := Timer(c[i].id, c[i].expires)]
  {
    hide Read;
  }

  lemma SlippedIn(l: seq<Timer>, i: nat, t: Timer, x: Timer)
    requires i < |l|
    ensures l[..i] + [t, x] + l[i + 1..] == l[i := x][..i] + [t] + l[i := x][i..]
  {
  }

  class TimerList {
    var first: Node?
    ghost var chain: seq<Node>

    ghost predicate Valid()
      reads this, chain`next
    {
      first == At(chain, 0) && Linked(chain, Nexts(chain))
    }

    ghost function List(): seq<Timer>
      reads this, chain`expires
    {
      Read(chain)
    }

    constructor ()
      ensures Valid() && chain == []
    {
      first, chain := null, [];
    }

    /** The node before position i. */
    ghost predicate Before(prev: Node?, i: nat)
      reads this
    {
      i <= |chain| && prev == if i == 0 then null else chain[i - 1]
    }

    /** *p = t, where p is the link after `prev`, or the first one. */
    method Relink(prev: Node?, t: Node?, ghost i: nat)
      requires Before(prev, i) && Linked(chain, Nexts(chain))
      modifies this`first, chain`next
      ensures first == if i == 0 then t else old(first)
      ensures Nexts(chain) == Led(old(Nexts(chain)), i, t)
    {
      hide Linked, Read, Nexts;
      ghost var c, nx := chain, Nexts(chain);
      if prev == null {
        first := t;
        assert i == 0;
      } else {
        LinkedAt(c, nx, i - 1);
        prev.next := t;
      }
      assert Nexts(c) == Led(nx, i, t);
    }

    /** The walk of add_timer: up to the first timer that is due later, which is then counted from the new one. */
    method FindPlace(t: Node) returns (prev: Node?, ghost i: nat)
      requires Valid() && t !in chain
      modifies t, chain`expires
      ensures Valid() && Before(prev, i) && t.next == At(chain, i)
      ensures Added(old(List()), t.id, old(t.expires)) == List()[..i] + [Timer(t.id, t.expires)] + List()[i..]
    {
      hide Added, Linked, Read, Nexts;
      ghost var c, l, n := chain, List(), t.expires;
      i := 0;
      prev := null;
      var p := first;
      t.next := null;
      assert l[..0] + Added(l[0..], t.id, n) == Added(l, t.id, n) by { assert l[0..] == l; }
      while p != null
        invariant Before(prev, i) && p == At(c, i) && t.next == null
        invariant Valid() && List() == l && Added(l, t.id, n) == l[..i] + Added(l[i..], t.id, t.expires)
        decreases |c| - i
      {
        AddedAt(l, i, t.id, t.expires);
        LinkedAt(c, Nexts(c), i);
        if p.expires > t.expires {
          p.expires := p.expires - t.expires;
          t.next := p;
          ReadSet(c, l, i);
          SlippedIn(l, i, Timer(t.id, t.expires), Timer(p.id, p.expires));
          return;
        }
        t.expires := t.expires - p.expires;
        prev := p;
        p := p.next;
        i := i + 1;
      }
      AddedLast(l, t.id, t.expires);
    }

    /** add_timer (kernel/sched.c:264-286) of a timer that is not in the list. */
    method AddTimer(t: Node)
      requires Valid() && Absent(Due(List(), 0), t.id)
      modifies this, chain, t
      ensures Valid() && exists i :: 0 <= i <= |old(chain)| && chain == old(chain)[..i] + [t] + old(chain)[i..]
      ensures List() == Added(old(List()), t.id, old(t.expires))
      ensures Due(List(), 0) == Insert(old(Due(List(), 0)), Pending(t.id, old(t.expires)))
    {
      hide Added, Due, Insert, Absent, Linked, Read, Nexts;
      ghost var c, l := chain, List();
      AddedMeans(l, t.id, t.expires, 0);
      AbsentName(c, l, t.id);
      ghost var i;
      var prev;
      prev, i := FindPlace(t);
      ghost var m, nx := List(), Nexts(c);
      assert t !in c;
      Relink(prev, t, i);
      chain := c[..i] + [t] + c[i..];
      Inserted(c, nx, i, t);
      HookedIn(c, i, t);
      LedTail(nx, i, t);
    }

    /** The walk of del_timer, and the ticks it passes. */
    method FindTimer(t: Node) returns (prev: Node?, found: bool, passed: nat, ghost i: nat)
      requires Valid() && forall n :: n in chain && n.id == t.id ==> n == t
      ensures Before(prev, i) && (found <==> t in chain) && (found ==> i < |chain| && chain[i] == t)
      ensures Deleted(List(), t.id) == if found then List()[..i] + Deleted(List()[i..], t.id) else List()
      ensures found ==> Pending(t.id, passed + t.expires) in Due(List(), 0)
    {
      hide Deleted, Due, Linked, Read, Nexts;
      ghost var c, l := chain, List();
      ghost var gone: seq<Pending> := [];
      i, passed, prev, found := 0, 0, null, false;
      var p := first;
      assert l[0..] == l && l[..0] + Deleted(l[0..], t.id) == Deleted(l, t.id);
      while p != null
        invariant Before(prev, i) && p == At(c, i) && t !in c[..i]
        invariant Deleted(l, t.id) == l[..i] + Deleted(l[i..], t.id) && Due(l, 0) == gone + Due(l[i..], passed)
        decreases |c| - i
      {
        LinkedAt(c, Nexts(c), i);
        if p == t {
          Waiting(l, i, gone, passed);
          return prev, true, passed, i;
        }
        NotYet(l, i, t.id, gone, passed);
        passed := passed + p.expires;
        gone := gone + [Pending(p.id, passed)];
        prev := p;
        p := p.next;
        i := i + 1;
      }
      DeletedLast(l, t.id, passed);
    }

    /** *p = t->next, where t is at position i. */
    method Unhook(prev: Node?, t: Node, ghost i: nat)
      requires Valid() && Before(prev, i) && i < |chain| && chain[i] == t
      modifies this, chain`next
      ensures Valid() && chain == old(chain)[..i] + old(chain)[i + 1..] && t !in chain && t.next == At(chain, i)
      ensures List() == old(List())[..i] + old(List())[i + 1..]
      ensures forall n :: n in chain ==> n in old(chain)
    {
      hide Linked, Read, Nexts;
      ghost var c, nx := chain, Nexts(chain);
      LinkedAt(c, nx, i);
      Unlinked(c, nx, i);
      Relink(prev, t.next, i);
      assert Nexts(c)[i] == t.next;
      chain := c[..i] + c[i + 1..];
      Parted(c, i);
      LedTail(nx, i, nx[i]);
    }

    /** The timer that came next takes over t's ticks. */
    method PassOn(t: Node, ghost i: nat)
      requires Valid() && t !in chain && i <= |chain| && t.next == At(chain, i)
      modifies chain`expires
      ensures Valid() && t.expires == old(t.expires)
      ensures List() == Passed(old(List()), i, t.expires)
    {
      hide Linked, Read, Nexts;
      ghost var l := List();
      if t.next != null {
        LinkedAt(chain, Nexts(chain), i);
        t.next.expires := t.next.expires + t.expires;
        ReadSet(chain, l, i);
      }
    }

    /** del_timer (kernel/sched.c:288-310): the walk looks for this very node, and a name stands for one node.  The
        timer's own time, counted from now, is put back in it. */
    method DelTimer(t: Node) returns (found: bool)
      requires Valid() && forall n :: n in chain && n.id == t.id ==> n == t
      modifies this, chain
      ensures Valid() && (found <==> t in old(chain)) && t !in chain
      ensures List() == Deleted(old(List()), t.id)
      ensures Due(List(), 0) == Remove(old(Due(List(), 0)), t.id)
      ensures if found then Pending(t.id, t.expires) in old(Due(List(), 0)) else t.expires == old(t.expires)
    {
      hide Deleted, Due, Remove, Linked, Read, Nexts, Passed;
      ghost var l := List();
      DeletedMeans(l, t.id, 0);
      ghost var i;
      var prev, passed;
      prev, found, passed, i := FindTimer(t);
      if found {
        Cut(l, i, t.id);
        assert l[i].expires == t.expires && t in chain;
        Unhook(prev, t, i);
        PassOn(t, i);
        assert List() == Deleted(l, t.id);
        t.expires := t.expires + passed;
      }
    }

    /** The timer list's part of do_timer (kernel/sched.c:415-424): which timers run. */
    method DoTimer() returns (ran: seq<nat>)
      requires Valid()
      modifies this, chain`expires
      ensures Valid() && List() == After(old(List())) && ran == Runs(old(List()))
      ensures Due(List(), 0) == Ticked(old(Due(List(), 0))) && ran == Fired(old(Due(List(), 0)))
    {
      hide Due, Ticked, Fired, Linked, Read, Nexts, After, Runs;
      AfterMeans(List());
      ran := [];
      while first != null && first.expires == 0
        invariant Valid() && forall n :: n in chain ==> n in old(chain)
        invariant After(List()) == After(old(List())) && ran + Runs(List()) == Runs(old(List()))
        decreases |chain|
      {
        RunsFirst(List());
        ran := ran + [first.id];
        DropFirst();
      }
      ghost var m := List();
      RunsNoMore(m);
      if first != null {
        LinkedAt(chain, Nexts(chain), 0);
        assert first in chain;
        first.expires := first.expires - 1;
        ReadSet(chain, m, 0);
      }
    }

    method DropFirst()
      requires Valid() && first != null
      modifies this
      ensures Valid() && chain == old(chain)[1..] && List() == old(List())[1..]
    {
      hide Linked, Read, Nexts;
      ghost var c, nx := chain, Nexts(chain);
      LinkedAt(c, nx, 0);
      Unlinked(c, nx, 0);
      first := first.next;
      chain := c[1..];
      assert c[..0] + c[1..] == chain && Nexts(chain) == Led(nx, 0, nx[0])[..0] + nx[1..];
      assert List() == old(List())[1..];
    }
  }

  /** The walk of del_timer passes a timer. */
  lemma NotYet(l: seq<Timer>, i: nat, id: nat, gone: seq<Pending>, passed: nat)
    requires i < |l| && l[i].id != id
    requires Deleted(l, id) == l[..i] + Deleted(l[i..], id) && Due(l, 0) == gone + Due(l[i..], passed)
    ensures Deleted(l, id) == l[..i + 1] + Deleted(l[i + 1..], id)
    ensures var due := passed + l[i].expires; Due(l, 0) == (gone + [Pending(l[i].id, due)]) + Due(l[i + 1..], due)
  {
    hide Deleted, Due;
    DeletedAt(l, i, id);
    DueAt(l, i, passed);
  }

  lemma Waiting(l: seq<Timer>, i: nat, gone: seq<Pending>, passed: nat)
    requires i < |l| && Due(l, 0) == gone + Due(l[i..], passed)
    ensures Pending(l[i].id, passed + l[i].expires) in Due(l, 0)
  {
    hide Due;
    DueAt(l, i, passed);
    assert Due(l, 0)[|gone|] == Pending(l[i].id, passed + l[i].expires);
  }

  /** A timer with nothing left, at the head. */
  lemma RunsFirst(l: seq<Timer>)
    requires l != [] && l[0].expires == 0
    ensures After(l) == After(l[1..]) && Runs(l) == [l[0].id] + Runs(l[1..])
  {
  }

  lemma RunsNoMore(l: seq<Timer>)
    requires l != [] ==> l[0].expires > 0
    ensures Runs(l) == [] && After(l) == if l == [] then [] else l[0 := Timer(l[0].id, l[0].expires - 1)]
  {
  }

  lemma {:induction false} AbsentName(c: seq<Node>, l: seq<Timer>, id: nat)
    requires |l| == |c| && (forall i :: 0 <= i < |c| ==> l[i].id == c[i].id) && Absent(Due(l, 0), id)
    ensures forall n :: n in c ==> n.id != id
  {
    forall i | 0 <= i < |c|
      ensures c[i].id != id
    {
      Listed(l, 0, i);
    }
  }

  lemma {:induction false} Listed(l: seq<Timer>, base: nat, i: nat)
    requires i < |l|
    ensures exists p :: p in Due(l, base) && p.id == l[i].id
  {
    if i == 0 {
      assert Due(l, base)[0].id == l[0].id;
    } else {
      Listed(l[1..], base + l[0].expires, i - 1);
      var p :| p in Due(l[1..], base + l[0].expires) && p.id == l[i].id;
      assert p in Due(l, base);
    }
  }

  /** Entry i is gone, and the one after it has its ticks. */
  lemma Cut(l: seq<Timer>, i: nat, id: nat)
    requires i < |l| && l[i].id == id && Deleted(l, id) == l[..i] + Deleted(l[i..], id)
    ensures Deleted(l, id) == Passed(l[..i] + l[i + 1..], i, l[i].expires)
  {
    hide Deleted;
    DeletedAt(l, i, id);
    var m := l[..i] + l[i + 1..];
    if i + 1 < |l| { assert m[i] == l[i + 1] && m[..i] == l[..i] && m[i + 1..] == l[i + 2..]; }
  }
}
