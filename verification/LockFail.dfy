/** When lock_it runs out of entries (fs/locks.c:370-391), on any list, and what it has changed by then. */
module LockFail {
  import opened FileLocks
  import opened LockScan
  import opened LockSteps
  import opened LockDone
  import opened LockTrace

  /** The scan goes past the lock without changing it, though perhaps it will trim it in the end. */
  predicate Skips(l: FileLock, k: Kind, cs: int, ce: int) {
    if l.kind == k then l.end < cs - 1
    else l.end < cs || (l.start < cs && l.start <= ce && l.end <= ce)
  }

  /** It merges with the lock, or puts the request in its place. */
  predicate Takes(l: FileLock, k: Kind, cs: int, ce: int) {
    if l.kind == k then l.end >= cs - 1 && l.start <= Wrap32(ce + 1)
    else l.end >= cs && l.start <= ce && l.end <= ce && l.start >= cs
  }

  /** The lock reaches over both ends of the request and is to be split. */
  predicate Splits(l: FileLock, k: Kind, cs: int, ce: int) {
    l.kind != k && l.end >= cs && l.start <= ce && l.end > ce && l.start < cs
  }

  /** How many of the owner's locks, from the first of `rest` on, the scan skips. */
  function Skipped(req: FileLock, cs: int, ce: int, rest: seq<FileLock>): (n: nat)
    ensures n <= |rest|
  {
    if rest == [] || rest[0].owner != req.owner || !Skips(rest[0], req.kind, cs, ce) then 0
    else 1 + Skipped(req, cs, ce, rest[1..])
  }

  /** The first lock from position i on at which a scan for cs..ce does something. */
  function NextMet(list: seq<FileLock>, req: FileLock, cs: int, ce: int, i: nat): (m: nat)
    requires i <= |list|
    ensures i <= m <= |list|
  {
    i + Skipped(req, cs, ce, list[i..])
  }

  predicate MineAt(list: seq<FileLock>, req: FileLock, i: nat) {
    i < |list| && list[i].owner == req.owner
  }

  function FirstMet(list: seq<FileLock>, req: FileLock): (m: nat)
    ensures m <= |list|
  {
    NextMet(list, req, req.start, req.end, From(list, req.owner))
  }

  /** The scan merges with a lock, or replaces one. */
  predicate TakesOne(list: seq<FileLock>, req: FileLock) {
    var m := FirstMet(list, req);
    MineAt(list, req, m) && Takes(list[m], req.kind, req.start, req.end)
  }

  /** The request's entry in place of lock l. */
  function TakenAs(l: FileLock, req: FileLock): FileLock {
    if l.kind == req.kind then FileLock(l.slot, l.owner, req.kind, Min(req.start, l.start), Max(req.end, l.end))
    else FileLock(l.slot, l.owner, req.kind, req.start, req.end)
  }

  /** What a failing request leaves. */
  function Retyped(list: seq<FileLock>, req: FileLock): seq<FileLock> {
    var m := FirstMet(list, req);
    if TakesOne(list, req) then list[m := TakenAs(list[m], req)] else list
  }

  /** A lock of another kind is replaced, or one of the request's kind enlarged. */
  predicate Alters(list: seq<FileLock>, req: FileLock) {
    var m := FirstMet(list, req);
    && TakesOne(list, req)
    && (list[m].kind != req.kind || list[m].start > req.start || list[m].end < req.end)
  }

  /** There are too few free entries.  Once a lock is taken only a lock to be split needs one; if a second lock is
      taken, or any by an unlock, its entry is free for that. */
  predicate Fails(list: seq<FileLock>, free: seq<nat>, req: FileLock) {
    var m := FirstMet(list, req);
    if TakesOne(list, req) then
      var e := TakenAs(list[m], req);
      var n := NextMet(list, req, e.start, e.end, m + 1);
      req.kind != UnLck && free == [] && MineAt(list, req, n) && Splits(list[n], req.kind, e.start, e.end)
    else
      |free| < (if req.kind == UnLck then 0 else 1)
               + (if MineAt(list, req, m) && Splits(list[m], req.kind, req.start, req.end) then 1 else 0)
  }

  lemma AltersIs(list: seq<FileLock>, req: FileLock)
    ensures Retyped(list, req) != list <==> Alters(list, req)
  {
    var m := FirstMet(list, req);
    if TakesOne(list, req) {
      assert list[m := TakenAs(list[m], req)][m] == TakenAs(list[m], req);
    }
  }

  // ---- what the scan does ----

  /** The scan skips what it skips. */
  lemma {:induction false} SkipAll(req: FileLock, s: State) returns (t: State)
    requires Placed(req, s) && !s.stop
    ensures Placed(req, t) && !t.stop && Scanned(req, s) == Scanned(req, t)
    ensures var n := Skipped(req, s.cs, s.ce, s.rest); t.done == s.done + s.rest[..n] && t.rest == s.rest[n..]
    ensures t.free == s.free && t.cs == s.cs && t.ce == s.ce && t.mine == s.mine
    ensures (s.added ==> t.added) && (req.kind != UnLck ==> t.added == s.added)
    ensures t.rest == [] || t.rest[0].owner != req.owner || !Skips(t.rest[0], req.kind, t.cs, t.ce)
    decreases |s.rest|
  {
    if s.rest == [] || s.rest[0].owner != req.owner || !Skips(s.rest[0], req.kind, s.cs, s.ce) {
      t := s;
    } else {
      var u := Looked(req, s);
      SkipOne(req, s);
      hide Looked, Skips, Scanned, AtEnd, Placed, Entered;
      t := SkipAll(req, u);
      Onward(s.done, s.rest, Skipped(req, u.cs, u.ce, u.rest));
    }
  }

  lemma Onward(done: seq<FileLock>, rest: seq<FileLock>, n: nat)
    requires rest != [] && n <= |rest[1..]|
    ensures done + rest[..n + 1] == (done + [rest[0]]) + rest[1..][..n] && rest[n + 1..] == rest[1..][n..]
  {
  }

  lemma SkipOne(req: FileLock, s: State)
    requires Placed(req, s) && !s.stop && !AtEnd(req, s) && Skips(s.rest[0], req.kind, s.cs, s.ce)
    ensures var u := Looked(req, s);
      && Placed(req, u) && !u.stop && Scanned(req, s) == Scanned(req, u)
      && u.done == s.done + [s.rest[0]] && u.rest == s.rest[1..]
      && u.free == s.free && u.cs == s.cs && u.ce == s.ce && u.mine == s.mine
      && (s.added ==> u.added) && (req.kind != UnLck ==> u.added == s.added)
  {
  }

  /** Where nothing is taken the scan ends, and `left` is `right` if the lock there is to be split. */
  lemma Settled(req: FileLock, t: State)
    requires Placed(req, t) && !t.stop && t.cs <= t.ce
    requires t.rest == [] || t.rest[0].owner != req.owner
             || (!Skips(t.rest[0], req.kind, t.cs, t.ce) && !Takes(t.rest[0], req.kind, t.cs, t.ce))
    ensures var u := Scanned(req, t); var split := MineAt(t.rest, req, 0) && Splits(t.rest[0], req.kind, t.cs, t.ce);
      && u.done + u.rest == t.done + t.rest && u.free == t.free && (u.left == |u.done| <==> split)
      && (t.added ==> u.added) && (req.kind != UnLck ==> u.added == t.added)
      && (req.kind == UnLck && split ==> u.added)
  {
    if !AtEnd(req, t) {
      var u := Looked(req, t);
      assert u.stop && Scanned(req, u) == u;
    }
  }

  /** An entry that was freed stays free to the end of the scan. */
  lemma {:induction false} StaysFree(req: FileLock, s: State)
    requires Placed(req, s) && s.added && s.free != []
    ensures var u := Scanned(req, s); u.added && u.free != []
    decreases |s.rest|, !s.stop
  {
    if !AtEnd(req, s) { StaysFree(req, Looked(req, s)); }
  }

  lemma NeverFails(req: FileLock, s: State)
    requires Placed(req, s) && s.added && s.free != []
    ensures Ended(req, Scanned(req, s)).0 == Ok
  {
    StaysFree(req, s);
  }

  /** After one lock was taken. */
  lemma AfterOne(req: FileLock, s: State)
    requires Placed(req, s) && !s.stop && s.added && req.kind != UnLck && s.cs <= s.ce
    ensures var r := Ended(req, Scanned(req, s)); var n := Skipped(req, s.cs, s.ce, s.rest);
      && (r.0 == ENoLck <==> s.free == [] && MineAt(s.rest, req, n) && Splits(s.rest[n], req.kind, s.cs, s.ce))
      && (r.0 == ENoLck ==> r.1 == s.done + s.rest && r.2 == s.free)
  {
    var t := SkipAll(req, s);
    var n := Skipped(req, s.cs, s.ce, s.rest);
    assert s.rest == s.rest[..n] + s.rest[n..];
    if MineAt(t.rest, req, 0) && Takes(t.rest[0], req.kind, t.cs, t.ce) {
      var u := Looked(req, t);
      assert u.added && u.free == [t.rest[0].slot] + t.free;
      NeverFails(req, u);
    } else {
      Settled(req, t);
    }
  }

  lemma UnlockTakes(req: FileLock, t: State)
    requires Placed(req, t) && !t.stop && MineAt(t.rest, req, 0) && t.rest[0].kind != UnLck && req.kind == UnLck
    requires Takes(t.rest[0], req.kind, t.cs, t.ce)
    ensures var u := Looked(req, t);
      Scanned(req, t) == Scanned(req, u) && u.added && u.free == [t.rest[0].slot] + t.free
  {
  }

  lemma TakesFirst(list: seq<FileLock>, req: FileLock, t: State, m: nat)
    requires Placed(req, t) && !t.stop && !t.added && req.kind != UnLck && m < |list| && list[m].owner == req.owner
    requires t.cs == req.start && t.ce == req.end && t.done == list[..m] && t.rest == list[m..]
    requires Takes(list[m], req.kind, t.cs, t.ce)
    ensures var u := Looked(req, t); var e := TakenAs(list[m], req);
      && Scanned(req, t) == Scanned(req, u) && !u.stop && u.added && u.free == t.free
      && u.cs == e.start && u.ce == e.end && u.rest == list[m + 1..] && u.done + u.rest == list[m := e]
  {
    assert t.rest[0] == list[m] && t.rest[1..] == list[m + 1..];
  }

  /** On every list: lock_it fails for want of entries exactly if `Fails`.  It then leaves the free list alone, and
      the list too, but for the one lock it may have taken. */
  lemma FailsWhen(list: seq<FileLock>, free: seq<nat>, req: FileLock)
    requires Loose(list) && 0 <= req.start <= req.end <= OFFSET_MAX
    ensures var r := Applied(list, free, req);
      && (r.0 == ENoLck <==> Fails(list, free, req))
      && (r.0 == ENoLck ==> r.1 == Retyped(list, req) && r.2 == free)
  {
    var t := ToFirst(list, free, req);
    var m := FirstMet(list, req);
    hide FirstMet, Looked, Ended, Scanned, Start;
    if TakesOne(list, req) {
      hide NextMet, Takes, Placed, Loose;
      var u := Looked(req, t);
      if req.kind == UnLck {
        UnlockTakes(req, t);
        NeverFails(req, u);
      } else {
        TakesFirst(list, req, t, m);
        AfterOne(req, u);
        NextIs(list, req, TakenAs(list[m], req), m + 1);
      }
    } else {
      Settled(req, t);
      hide Takes, Skips, Placed, NextMet;
      EndedFails(req, Scanned(req, t));
    }
  }

  lemma NextIs(list: seq<FileLock>, req: FileLock, e: FileLock, i: nat)
    requires i <= |list|
    ensures var k := Skipped(req, e.start, e.end, list[i..]); var n := NextMet(list, req, e.start, e.end, i);
      n == i + k && (MineAt(list[i..], req, k) <==> MineAt(list, req, n)) && (n < |list| ==> list[i..][k] == list[n])
  {
  }

  lemma EndedFails(req: FileLock, s: State)
    requires Placed(req, s)
    ensures var r := Ended(req, s);
      && (r.0 == ENoLck <==> !(!s.added && req.kind == UnLck) && |s.free| < Spent(s))
      && (r.0 == ENoLck ==> r.1 == s.done + s.rest && r.2 == s.free)
  {
  }

  /** The state in which the scan comes to the first lock that it does not skip. */
  lemma ToFirst(list: seq<FileLock>, free: seq<nat>, req: FileLock) returns (t: State)
    ensures Placed(req, t) && !t.stop && t.cs == req.start && t.ce == req.end && t.free == free
    ensures Applied(list, free, req) == Ended(req, Scanned(req, t)) && (req.kind != UnLck ==> !t.added)
    ensures var m := FirstMet(list, req);
      && t.done == list[..m] && t.rest == list[m..] && t.done + t.rest == list
      && (MineAt(list, req, m) ==> t.rest != [] && t.rest[0] == list[m] && !Skips(list[m], req.kind, t.cs, t.ce))
      && (MineAt(list, req, m) <==> MineAt(t.rest, req, 0))
  {
    var s := Start(list, free, req);
    hide Scanned, Ended, Skips, Skipped;
    t := SkipAll(req, s);
    var at, m := From(list, req.owner), FirstMet(list, req);
    assert list[..m] == list[..at] + list[at..][..m - at] && list[at..][m - at..] == list[m..];
  }
}
