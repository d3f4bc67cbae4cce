/** lock_it (fs/locks.c:266-394) as a function: what one turn of its scan does, the whole scan, and what follows.  It is
    the same on every list; `LockIt` computes it and says what it means, `LockFail` says when it fails. */
module LockTrace {
  import opened FileLocks
  import opened LockScan
  import opened LockSteps
  import opened LockDone

  /** The caller's entry and `left` are among those in front, unless `left` is `right`, the lock at `before`. */
  predicate Placed(req: FileLock, s: State) {
    && (Entered(req, s) ==> s.mine < |s.done|)
    && (s.left < |s.done| || (s.left == |s.done| && s.right))
    && (s.right ==> s.stop && s.rest != [])
  }

  /** The lock at `before` is freed, or becomes the caller's entry if it has none yet. */
  function Replaced(req: FileLock, s: State, cs: int, ce: int): (r: State)
    requires s.rest != [] && Placed(req, s) && !s.stop
    ensures Placed(req, r) && !r.stop && |r.rest| < |s.rest|
  {
    if s.added then Freed(req, s, cs, ce) else TakenOver(req, s, cs, ce)
  }

  /** One turn at a lock of the owner (fs/locks.c:286-368). */
  function Looked(req: FileLock, s: State): (r: State)
    requires s.rest != [] && Placed(req, s) && !s.stop
    ensures Placed(req, r) && if r.stop then r.rest == s.rest else |r.rest| < |s.rest|
  {
    var fl := s.rest[0];
    if fl.kind == req.kind then
      if fl.end < s.cs - 1 then Passed(s)
      else if fl.start > Wrap32(s.ce + 1) then s.(stop := true)
      else Replaced(req, s, Min(s.cs, fl.start), Max(s.ce, fl.end))
    else if fl.end < s.cs then Passed(s)
    else if fl.start > s.ce then s.(stop := true)
    else Overlapped(req, if req.kind == UnLck then s.(added := true) else s)
  }

  /** ... of another kind, which overlaps the request (fs/locks.c:333-362). */
  function Overlapped(req: FileLock, s: State): (r: State)
    requires s.rest != [] && Placed(req, s) && !s.stop
    ensures Placed(req, r) && if r.stop then r.rest == s.rest else |r.rest| < |s.rest|
  {
    var fl := s.rest[0];
    if fl.end > s.ce then s.(left := if fl.start < s.cs then |s.done| else s.left, stop := true, right := true)
    else if fl.start >= s.cs then Replaced(req, s, s.cs, s.ce)
    else Passed(s).(left := |s.done|)
  }

  predicate AtEnd(req: FileLock, s: State) {
    s.stop || s.rest == [] || s.rest[0].owner != req.owner
  }

  /** The rest of the scan. */
  function Scanned(req: FileLock, s: State): (r: State)
    requires Placed(req, s)
    ensures Placed(req, r)
    decreases |s.rest|, !s.stop
  {
    if AtEnd(req, s) then s else Scanned(req, Looked(req, s))
  }

  /** The lists that are left when the scan is over (fs/locks.c:370-393). */
  function Ended(req: FileLock, s: State): (Status, seq<FileLock>, seq<nat>)
    requires Placed(req, s)
  {
    if !s.added && req.kind == UnLck then (EInval, s.done + s.rest, s.free)
    else if |s.free| < Spent(s) then (ENoLck, s.done + s.rest, s.free)
    else
      var entry := if s.added then FileLock(0, 0, UnLck, 0, 0)
        else FileLock(s.free[0], req.owner, req.kind, s.cs, s.ce);
      var copy := if s.left == |s.done| then s.rest[0].(slot := s.free[Spent(s) - 1]) else entry;
      (Ok, Final(s, entry, copy), s.free[Spent(s)..])
  }

  /** Where the owner's locks begin. */
  function From(list: seq<FileLock>, o: nat): (at: nat)
    ensures at <= |list| && (forall i :: 0 <= i < at ==> list[i].owner != o) && (at < |list| ==> list[at].owner == o)
  {
    if list == [] || list[0].owner == o then 0 else 1 + From(list[1..], o)
  }

  function Start(list: seq<FileLock>, free: seq<nat>, req: FileLock): (s: State)
    ensures Placed(req, s) && !s.stop
  {
    var at := From(list, req.owner);
    State(list[..at], list[at..], free, -1, req.start, req.end, false, 0, false, false)
  }

  /** All of it: the status, the list and the free entries. */
  function Applied(list: seq<FileLock>, free: seq<nat>, req: FileLock): (Status, seq<FileLock>, seq<nat>) {
    Ended(req, Scanned(req, Start(list, free, req)))
  }
}
