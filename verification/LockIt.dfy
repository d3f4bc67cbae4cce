/** lock_it (fs/locks.c:266-394): apply a set or unlock request to the lock list of an inode. */
module LockIt {
  import opened FileLocks
  import opened LockScan
  import opened LockFinish
  import opened LockClash
  import opened LockLoose
  import opened LockSteps
  import opened LockDone
  import opened LockRight
  import opened LockTrace
  import opened LockFail

  /** What a step of the scan needs and keeps, on any list and on a well-formed one. */
  ghost predicate Going(list: seq<FileLock>, free: seq<nat>, req: FileLock, at: nat, s: State, v: View) {
    && Request(list, req, at) && Loosely(list, free, req, at, s)
    && (ListOK(list) ==> Scanning(list, free, req, s, v) && Tied(s, v))
  }

  /** It goes on from here. */
  predicate Free(s: State) {
    !s.stop && !s.right && s.left < |s.done|
  }

  // ---- a lock of the request's own kind ----

  lemma PassSame(list: seq<FileLock>, free: seq<nat>, req: FileLock, s: State, v: View)
    requires Scanning(list, free, req, s, v) && Tied(s, v) && Free(s) && s.rest != [] && s.rest[0].owner == req.owner
    requires s.rest[0].kind == req.kind && s.rest[0].end < s.cs - 1
    ensures Scanning(list, free, req, Passed(s), v.(n := v.n + 1)) && Tied(Passed(s), v.(n := v.n + 1))
  {
    hide Scanning, Scan, ListOK;
    Facts(list, free, req, s, v);
    Skip(list, req, v.W, v.at, v.e, v.n, v.left, s.cs, s.ce, v.hit);
    PassSeen(list, free, req, s, v, s.left, s.added, v.(n := v.n + 1));
  }

  lemma MergeSame(list: seq<FileLock>, free: seq<nat>, req: FileLock, s: State, v: View, cs: int, ce: int)
    requires Scanning(list, free, req, s, v) && Tied(s, v) && Free(s) && s.rest != [] && s.rest[0].owner == req.owner
    requires s.rest[0].kind == req.kind && s.rest[0].end >= s.cs - 1 && s.rest[0].start <= s.ce + 1 && s.ce < OFFSET_MAX
    requires cs == Min(s.cs, s.rest[0].start) && ce == Max(s.ce, s.rest[0].end)
    requires s.added ==> Entered(req, s) && s.mine < |s.done|
    ensures v.n < |v.W| && v.e > 0 && req.kind != UnLck
    ensures var s' := if s.added then Freed(req, s, cs, ce) else TakenOver(req, s, cs, ce);
            var v' := v.(W := Delete(v.W, v.n), e := v.e - 1, hit := true);
            Scanning(list, free, req, s', v') && Tied(s', v')
  {
    hide Scanning, Scan, ListOK;
    Facts(list, free, req, s, v);
    Merge(list, req, v.W, v.at, v.e, v.n, v.left, s.cs, s.ce, v.hit);
    if s.added {
      FreeSeen(list, free, req, s, v, cs, ce);
    } else {
      TakeOverSeen(list, free, req, s, v, cs, ce);
    }
  }

  /** The scan stops in front of a lock of the same kind: it is clear of the request, unless the test wrapped. */
  lemma StopSame(list: seq<FileLock>, free: seq<nat>, req: FileLock, s: State, v: View)
    requires Scanning(list, free, req, s, v) && Tied(s, v) && Free(s) && s.rest != [] && s.rest[0].owner == req.owner
    requires s.rest[0].kind == req.kind && s.rest[0].end >= s.cs - 1
      && (s.rest[0].start > s.ce + 1 || s.ce >= OFFSET_MAX)
    ensures Scanning(list, free, req, s.(stop := true), v) && Tied(s.(stop := true), v)
    ensures Halted(list, req, s.(stop := true), v)
  {
    StopSeen(list, free, req, s, v);
    hide Scanning, Scan, ListOK, Stopped;
    Facts(list, free, req, s, v);
    if s.rest[0].start > s.ce + 1 {
      ClearAhead(list, req, v.W, v.at, v.e, v.n, v.left, s.cs, s.ce, v.hit);
    }
  }

  lemma StopSeen(list: seq<FileLock>, free: seq<nat>, req: FileLock, s: State, v: View)
    requires Scanning(list, free, req, s, v)
    ensures Scanning(list, free, req, s.(stop := true), v)
  {
    hide Scan, ListOK, Past, Touches, Suffix;
  }

  lemma ClearAhead(list: seq<FileLock>, req: FileLock, W: seq<FileLock>, at: nat, e: nat, n: nat, left: int, cs: int,
                   ce: int, hit: bool)
    requires Scan(list, req, W, at, e, n, left, cs, ce, hit) && n < e && After(W[n], req.kind, ce)
    ensures Stopped(req, W, e, n, cs, ce, false)
  {
    hide SameEffect;
    assert LockOK(W[n]);
    forall i | n <= i < e
      ensures After(W[i], req.kind, ce)
    {
      if n < i {
        Sorted(W, req.owner, at, e, n, i);
      }
    }
  }

  /** A lock of the request's own kind (fs/locks.c:290-321). */
  method SameKind(list: seq<FileLock>, ghost free: seq<nat>, req: FileLock, s0: State, ghost at: nat, ghost v0: View)
      returns (s: State, ghost v: View)
    requires Going(list, free, req, at, s0, v0) && Free(s0)
    requires s0.rest != [] && s0.rest[0].owner == req.owner && s0.rest[0].kind == req.kind
    ensures Placed(req, s0) && s == Looked(req, s0)
    ensures Going(list, free, req, at, s, v)
    ensures if s.stop then s.rest == s0.rest else Free(s) && |s.rest| < |s0.rest|
    ensures s.stop && ListOK(list) ==> Halted(list, req, s, v)
  {
    hide Request, Loosely, Scanning, Tied, ListOK, Halted, Grown, Old;
    var fl := s0.rest[0];
    LooseHead(list, free, req, at, s0);
    if fl.end < s0.cs - 1 {
      s, v := Passed(s0), v0.(n := v0.n + 1);
      PassLoose(list, free, req, at, s0, s0.left, s0.added);
      if ListOK(list) {
        PassSame(list, free, req, s0, v0);
      }
    } else if fl.start > Wrap32(s0.ce + 1) {
      s, v := s0.(stop := true), v0;
      StopLoose(list, free, req, at, s0);
      if ListOK(list) {
        StopSame(list, free, req, s0, v0);
      }
    } else {
      var cs := if fl.start > s0.cs then s0.cs else fl.start;
      var ce := if fl.end < s0.ce then s0.ce else fl.end;
      GrowOver(list, req, s0.cs, s0.ce, fl);
      s := if s0.added then Freed(req, s0, cs, ce) else TakenOver(req, s0, cs, ce);
      if s0.added {
        FreeLoose(list, free, req, at, s0, cs, ce);
      } else {
        TakeOverLoose(list, free, req, at, s0, cs, ce);
      }
      v := v0;
      if ListOK(list) {
        MergeSame(list, free, req, s0, v0, cs, ce);
        v := v0.(W := Delete(v0.W, v0.n), e := v0.e - 1, hit := true);
      }
    }
  }

  lemma LooseHead(list: seq<FileLock>, free: seq<nat>, req: FileLock, at: nat, s: State)
    requires Request(list, req, at) && Loosely(list, free, req, at, s) && s.rest != [] && s.rest[0].owner == req.owner
    ensures LooseOK(s.rest[0]) && Old(list, req, s.rest[0]) && Grown(list, req, s.cs, s.ce)
    ensures 0 <= s.cs <= req.start <= req.end <= s.ce <= OFFSET_MAX
    ensures Entered(req, s) ==> s.mine < |s.done|
    ensures s.left >= -1
  {
    HeadLoose(list, free, req, at, s);
    hide Within, Counted, Old;
  }

  lemma StopLoose(list: seq<FileLock>, free: seq<nat>, req: FileLock, at: nat, s: State)
    requires Loosely(list, free, req, at, s)
    ensures Loosely(list, free, req, at, s.(stop := true))
  {
    hide Within, Counted, Grown, Shape;
  }

  // ---- a lock of another kind ----

  lemma PassOther(list: seq<FileLock>, free: seq<nat>, req: FileLock, s: State, v: View)
    requires Scanning(list, free, req, s, v) && Tied(s, v) && Free(s) && s.rest != [] && s.rest[0].owner == req.owner
    requires s.rest[0].kind != req.kind && s.rest[0].end < s.cs
    ensures Scanning(list, free, req, Passed(s), v.(n := v.n + 1)) && Tied(Passed(s), v.(n := v.n + 1))
  {
    hide Scanning, Scan, ListOK;
    Facts(list, free, req, s, v);
    Skip(list, req, v.W, v.at, v.e, v.n, v.left, s.cs, s.ce, v.hit);
    PassSeen(list, free, req, s, v, s.left, s.added, v.(n := v.n + 1));
  }

  lemma StopOther(list: seq<FileLock>, free: seq<nat>, req: FileLock, s: State, v: View)
    requires Scanning(list, free, req, s, v) && Tied(s, v) && Free(s) && s.rest != [] && s.rest[0].owner == req.owner
    requires s.rest[0].kind != req.kind && s.rest[0].start > s.ce
    ensures Scanning(list, free, req, s.(stop := true), v) && Tied(s.(stop := true), v)
    ensures Halted(list, req, s.(stop := true), v)
  {
    StopSeen(list, free, req, s, v);
    hide Scanning, Scan, ListOK, Stopped;
    Facts(list, free, req, s, v);
    ClearAhead(list, req, v.W, v.at, v.e, v.n, v.left, s.cs, s.ce, v.hit);
  }

  /** An unlock request has found something. */
  lemma MarkUnlock(list: seq<FileLock>, free: seq<nat>, req: FileLock, s: State, v: View)
    requires Scanning(list, free, req, s, v) && Tied(s, v) && Free(s) && s.rest != [] && s.rest[0].owner == req.owner
    requires req.kind == UnLck && s.rest[0].start <= s.ce && s.cs <= s.rest[0].end
    ensures Scanning(list, free, req, s.(added := true), v) && Tied(s.(added := true), v) && Touches(list, req)
  {
    assert Past(list, req, |list| - |s.rest|, true);
    hide Scan, ListOK, Past, Touches, Suffix;
    Facts(list, free, req, s, v);
    if !v.hit {
      FoundOne(list, req, v.W, v.n, s.cs, s.ce);
    }
  }

  lemma FoundOne(list: seq<FileLock>, req: FileLock, W: seq<FileLock>, n: nat, cs: int, ce: int)
    requires n < |W| && W[n].owner == req.owner && W == list && LockOK(W[n])
    requires W[n].start <= ce && cs <= W[n].end && cs == req.start && ce == req.end && cs <= ce
    ensures Touches(list, req)
  {
    var x := Max(cs, W[n].start);
    assert Holds(list, req.owner, W[n].kind, x);
  }

  lemma LeftOther(list: seq<FileLock>, free: seq<nat>, req: FileLock, s: State, v: View)
    requires Scanning(list, free, req, s, v) && Tied(s, v) && Free(s) && s.rest != [] && s.rest[0].owner == req.owner
    requires s.rest[0].kind != req.kind && s.rest[0].start < s.cs <= s.rest[0].end <= s.ce
      && (req.kind == UnLck ==> s.added)
    ensures var s' := Passed(s).(left := |s.done|); var v' := v.(n := v.n + 1, left := v.n, hit := true);
            Scanning(list, free, req, s', v') && Tied(s', v')
  {
    LayoutSize(list, free, req, s, v);
    hide Scanning, Scan, ListOK;
    Facts(list, free, req, s, v);
    KeepLeft(list, req, v.W, v.at, v.e, v.n, v.left, s.cs, s.ce, v.hit);
    PassSeen(list, free, req, s, v, |s.done|, s.added, v.(n := v.n + 1, left := v.n, hit := true));
  }

  lemma LayoutSize(list: seq<FileLock>, free: seq<nat>, req: FileLock, s: State, v: View)
    requires Scanning(list, free, req, s, v)
    ensures !v.hit ==> |s.done| == v.n
  {
    hide Scan, ListOK, Past;
  }

  lemma CoverOther(list: seq<FileLock>, free: seq<nat>, req: FileLock, s: State, v: View)
    requires Scanning(list, free, req, s, v) && Tied(s, v) && Free(s) && s.rest != [] && s.rest[0].owner == req.owner
    requires s.rest[0].kind != req.kind && s.cs <= s.rest[0].start && s.rest[0].end <= s.ce
    requires (req.kind == UnLck ==> s.added) && (Entered(req, s) ==> s.mine < |s.done|)
    ensures v.n < |v.W| && v.e > 0
    ensures var s' := if s.added then Freed(req, s, s.cs, s.ce) else TakenOver(req, s, s.cs, s.ce);
            var v' := v.(W := Delete(v.W, v.n), e := v.e - 1, hit := true);
            Scanning(list, free, req, s', v') && Tied(s', v')
  {
    hide Scanning, Scan, ListOK;
    Facts(list, free, req, s, v);
    Cover(list, req, v.W, v.at, v.e, v.n, v.left, s.cs, s.ce, v.hit);
    if s.added {
      FreeSeen(list, free, req, s, v, s.cs, s.ce);
    } else {
      TakeOverSeen(list, free, req, s, v, s.cs, s.ce);
    }
  }

  lemma RightOther(list: seq<FileLock>, free: seq<nat>, req: FileLock, s: State, v: View, left: int)
    requires Scanning(list, free, req, s, v) && Tied(s, v) && Free(s) && s.rest != [] && s.rest[0].owner == req.owner
    requires s.rest[0].kind != req.kind && s.cs <= s.rest[0].end && s.rest[0].start <= s.ce < s.rest[0].end
    requires left == if s.rest[0].start < s.cs then |s.done| else s.left
    ensures var s' := s.(left := left, stop := true, right := true);
            Scanning(list, free, req, s', v) && Tied(s', v) && Halted(list, req, s', v)
  {
    Facts(list, free, req, s, v);
    hide ListOK, Past, Touches, Suffix, Stopped, SameEffect;
    ReachesOver(list, req, v.W, v.at, v.e, v.n, v.left, s.cs, s.ce, v.hit);
  }

  lemma ReachesOver(list: seq<FileLock>, req: FileLock, W: seq<FileLock>, at: nat, e: nat, n: nat, left: int, cs: int,
                    ce: int, hit: bool)
    requires Scan(list, req, W, at, e, n, left, cs, ce, hit) && n < e
    requires W[n].kind != req.kind && cs <= W[n].end && W[n].start <= ce < W[n].end
    ensures Stopped(req, W, e, n, cs, ce, true)
  {
    hide SameEffect;
    forall i | n < i < e
      ensures After(W[i], req.kind, ce)
    {
      Sorted(W, req.owner, at, e, n, i);
    }
  }

  /** A lock of another kind (fs/locks.c:325-362). */
  method OtherKind(list: seq<FileLock>, ghost free: seq<nat>, req: FileLock, s0: State, ghost at: nat, ghost v0: View)
      returns (s: State, ghost v: View)
    requires Going(list, free, req, at, s0, v0) && Free(s0)
    requires s0.rest != [] && s0.rest[0].owner == req.owner && s0.rest[0].kind != req.kind
    ensures Placed(req, s0) && s == Looked(req, s0)
    ensures Going(list, free, req, at, s, v)
    ensures if s.stop then s.rest == s0.rest else Free(s) && |s.rest| < |s0.rest|
    ensures s.stop && ListOK(list) ==> Halted(list, req, s, v)
  {
    hide Request, Loosely, Scanning, Tied, ListOK, Halted, Grown, Old, Touches;
    var fl := s0.rest[0];
    LooseHead(list, free, req, at, s0);
    s, v := s0, v0;
    if fl.end < s.cs {
      s, v := Passed(s), v.(n := v.n + 1);
      PassLoose(list, free, req, at, s0, s0.left, s0.added);
      if ListOK(list) {
        PassOther(list, free, req, s0, v0);
      }
    } else if fl.start > s.ce {
      s := s.(stop := true);
      StopLoose(list, free, req, at, s0);
      if ListOK(list) {
        StopOther(list, free, req, s0, v0);
      }
    } else {
      if req.kind == UnLck {
        s := s.(added := true);
        MarkLoose(list, free, req, at, s0);
        if ListOK(list) {
          MarkUnlock(list, free, req, s0, v0);
        }
      }
      s, v := Overlapping(list, free, req, s, at, v);
    }
  }

  lemma MarkLoose(list: seq<FileLock>, free: seq<nat>, req: FileLock, at: nat, s: State)
    requires Loosely(list, free, req, at, s) && req.kind == UnLck
    ensures Loosely(list, free, req, at, s.(added := true))
  {
    hide Within, Counted, Grown, Shape;
  }

  /** One that overlaps the request (fs/locks.c:331-362). */
  method Overlapping(list: seq<FileLock>, ghost free: seq<nat>, req: FileLock, s0: State, ghost at: nat, ghost v0: View)
      returns (s: State, ghost v: View)
    requires Going(list, free, req, at, s0, v0) && Free(s0) && (req.kind == UnLck ==> s0.added)
    requires s0.rest != [] && s0.rest[0].owner == req.owner && s0.rest[0].kind != req.kind
    requires s0.cs <= s0.rest[0].end && s0.rest[0].start <= s0.ce
    ensures Placed(req, s0) && s == Overlapped(req, s0)
    ensures Going(list, free, req, at, s, v)
    ensures if s.stop then s.rest == s0.rest else Free(s) && |s.rest| < |s0.rest|
    ensures s.stop && ListOK(list) ==> Halted(list, req, s, v)
  {
    hide Request, Loosely, Scanning, Tied, ListOK, Halted, Grown, Old;
    var fl := s0.rest[0];
    LooseHead(list, free, req, at, s0);
    var left := if fl.start < s0.cs then |s0.done| else s0.left;
    if fl.end > s0.ce {
      s, v := s0.(left := left, stop := true, right := true), v0;
      RightLoose(list, free, req, at, s0, left);
      if ListOK(list) {
        RightOther(list, free, req, s0, v0, left);
      }
    } else if fl.start >= s0.cs {
      s := if s0.added then Freed(req, s0, s0.cs, s0.ce) else TakenOver(req, s0, s0.cs, s0.ce);
      if s0.added {
        FreeLoose(list, free, req, at, s0, s0.cs, s0.ce);
      } else {
        TakeOverLoose(list, free, req, at, s0, s0.cs, s0.ce);
      }
      v := v0;
      if ListOK(list) {
        CoverOther(list, free, req, s0, v0);
        v := v0.(W := Delete(v0.W, v0.n), e := v0.e - 1, hit := true);
      }
    } else {
      s, v := Passed(s0).(left := left), v0.(n := v0.n + 1, left := v0.n, hit := true);
      PassLoose(list, free, req, at, s0, left, s0.added);
      if ListOK(list) {
        LeftOther(list, free, req, s0, v0);
      }
    }
  }

  lemma RightLoose(list: seq<FileLock>, free: seq<nat>, req: FileLock, at: nat, s: State, left: int)
    requires Loosely(list, free, req, at, s) && Free(s) && s.rest != [] && s.rest[0].owner == req.owner
    requires s.rest[0].kind != req.kind && s.rest[0].start <= s.ce < s.rest[0].end && (req.kind == UnLck ==> s.added)
    requires left == if s.rest[0].start < s.cs then |s.done| else s.left
    ensures Loosely(list, free, req, at, s.(left := left, stop := true, right := true))
  {
    hide Within, Counted, Grown, LooseOK;
  }

  // ---- the whole function ----

  lemma FindGroup(list: seq<FileLock>, o: nat, at: nat) returns (e: nat)
    requires Grouped(list) && at <= |list| && (forall i :: 0 <= i < at ==> list[i].owner != o)
    requires at < |list| ==> list[at].owner == o
    ensures Group(list, o, at, e)
  {
    e := at;
    while e < |list| && list[e].owner == o
      invariant at <= e <= |list| && forall i :: at <= i < e ==> list[i].owner == o
    {
      e := e + 1;
    }
    if at < |list| {
      forall i | e <= i < |list|
        ensures list[i].owner != o
      {
        if e < i {
          Together(list, at, e, i);
        }
      }
      if 0 < at && e < |list| {
        Together(list, at - 1, at, e);
      }
    }
  }

  lemma StartScan(list: seq<FileLock>, free: seq<nat>, req: FileLock, at: nat, e: nat)
    requires ListOK(list) && Group(list, req.owner, at, e) && 0 <= req.start <= req.end <= OFFSET_MAX
    requires forall i :: 0 <= i < at ==> list[i].owner != req.owner
    ensures var s := State(list[..at], list[at..], free, -1, req.start, req.end, false, 0, false, false);
            var v := View(list, at, e, at, -1, false);
            Scanning(list, free, req, s, v) && Tied(s, v)
  {
    assert req.(start := req.start, end := req.end) == req;
    assert list == list[..at] + list[at..];
  }

  lemma NoMore(list: seq<FileLock>, free: seq<nat>, req: FileLock, s: State, v: View)
    requires Scanning(list, free, req, s, v) && (s.rest == [] || s.rest[0].owner != req.owner) && !s.right
    ensures Halted(list, req, s, v)
  {
    ScanRange(list, free, req, s, v);
  }

  /** lock_it proper.  On any list no entry is lost, other owners keep what they hold, and the requester gets no byte
      he neither asked for nor had; ENOLCK comes exactly if `Fails`, and then at most one lock has changed, exactly if
      `Alters`.  On a well-formed list, the request is painted over it, except that an unmerged lock and those behind
      it stay when the request clashes; the list stays well formed exactly if it does not; an unlock fails with EINVAL
      exactly when it touches nothing; ENOLCK means exactly that there are fewer free entries than needed; and failure
      changes nothing. */
  method Apply(list: seq<FileLock>, free: seq<nat>, req: FileLock)
    returns (status: Status, list': seq<FileLock>, free': seq<nat>)
    requires Loose(list) && 0 <= req.start <= req.end <= OFFSET_MAX
    ensures (status, list', free') == Applied(list, free, req)
    ensures status == Ok || status == EInval || status == ENoLck
    ensures Bag(list') + multiset(free') == Bag(list) + multiset(free)
    ensures Loose(list') && Within(list, req, list')
    ensures status == EInval ==> list' == list && free' == free
    ensures status == ENoLck <==> Fails(list, free, req)
    ensures status == ENoLck ==> free' == free && list' == Retyped(list, req) && (list' != list <==> Alters(list, req))
    ensures ListOK(list) && status != Ok ==> list' == list && free' == free
    ensures ListOK(list) ==> (status == EInval <==> req.kind == UnLck && !Touches(list, req))
    ensures ListOK(list) ==> (status == ENoLck <==> |free| < Need(list, req))
    ensures ListOK(list) && status == Ok ==> Repainted(list, req, list') && (ListOK(list') <==> !Clashes(list, req))
  {
    hide Loosely, Scanning, Tied, ListOK, Halted, Touches, Within, Bag, Repainted, Request, Clashes, Scanned, Placed;
    hide Fails, Alters, Retyped, Ended;
    var at := 0;
    while at < |list| && list[at].owner != req.owner
      invariant at <= |list| && forall i :: 0 <= i < at ==> list[i].owner != req.owner
    {
      at := at + 1;
    }
    ghost var e: nat := FindGroup(list, req.owner, at);
    RequestAt(list, req, at);
    StartLoose(list, free, req, at);
    if ListOK(list) {
      StartScan(list, free, req, at, e);
    }
    Begun(list, free, req, at);
    var s := State(list[..at], list[at..], free, -1, req.start, req.end, false, 0, false, false);
    ghost var v := View(list, at, e, at, -1, false);
    while !s.stop && s.rest != [] && s.rest[0].owner == req.owner
      invariant Going(list, free, req, at, s, v) && (s.stop || Free(s))
      invariant s.stop && ListOK(list) ==> Halted(list, req, s, v)
      invariant Placed(req, s) && Scanned(req, s) == Scanned(req, Start(list, free, req))
      decreases |s.rest|, !s.stop
    {
      ScanNext(req, s);
      if s.rest[0].kind == req.kind {
        s, v := SameKind(list, free, req, s, at, v);
      } else {
        s, v := OtherKind(list, free, req, s, at, v);
      }
    }
    if ListOK(list) && !s.stop {
      NoMore(list, free, req, s, v);
    }
    ScanOver(req, s);
    status, list', free' := Finish(list, free, req, s, at, v);
    FailsWhen(list, free, req);
    AltersIs(list, req);
  }

  lemma ScanNext(req: FileLock, s: State)
    requires Placed(req, s) && !AtEnd(req, s)
    ensures Scanned(req, s) == Scanned(req, Looked(req, s))
  {
  }

  lemma ScanOver(req: FileLock, s: State)
    requires Placed(req, s) && AtEnd(req, s)
    ensures Scanned(req, s) == s
  {
  }

  lemma Begun(list: seq<FileLock>, free: seq<nat>, req: FileLock, at: nat)
    requires at <= |list| && (forall i :: 0 <= i < at ==> list[i].owner != req.owner)
    requires at < |list| ==> list[at].owner == req.owner
    ensures Start(list, free, req)
         == State(list[..at], list[at..], free, -1, req.start, req.end, false, 0, false, false)
  {
    assert From(list, req.owner) == at;
  }

  /** After the scan (fs/locks.c:370-393). */
  method Finish(list: seq<FileLock>, ghost free: seq<nat>, req: FileLock, s: State, ghost at: nat, ghost v: View)
      returns (status: Status, list': seq<FileLock>, free': seq<nat>)
    requires Going(list, free, req, at, s, v) && (ListOK(list) ==> Halted(list, req, s, v)) && Placed(req, s)
    ensures (status, list', free') == Ended(req, s)
    ensures status == Ok || status == EInval || status == ENoLck
    ensures Bag(list') + multiset(free') == Bag(list) + multiset(free)
    ensures Loose(list') && Within(list, req, list')
    ensures status == EInval ==> list' == list && free' == free
    ensures ListOK(list) && status != Ok ==> list' == list && free' == free
    ensures ListOK(list) ==> (status == EInval <==> req.kind == UnLck && !Touches(list, req))
    ensures ListOK(list) ==> (status == ENoLck <==> |free| < Need(list, req))
    ensures ListOK(list) && status == Ok ==> Repainted(list, req, list') && (ListOK(list') <==> !Clashes(list, req))
  {
    hide Loosely, Scanning, Tied, ListOK, Halted, Touches, Within, Bag, Repainted, Request, Clashes, Need, Loose;
    EndFacts(list, free, req, at, s, v);
    if !s.added && req.kind == UnLck {
      return EInval, s.done + s.rest, s.free;
    }
    var done, ahead, fr := s.done, [], s.free;
    if !s.added {
      if fr == [] {
        return ENoLck, done + s.rest, fr;
      }
      ahead, fr := [FileLock(fr[0], req.owner, req.kind, s.cs, s.ce)], fr[1..];
    }
    ghost var entry := if s.added then FileLock(0, 0, UnLck, 0, 0) else ahead[0];
    ghost var copy := entry;
    var left := s.left;
    if left == |done| {
      if fr == [] {
        if !s.added {
          ahead, fr := ahead[1..], [ahead[0].slot] + fr;
        }
        assert fr == s.free;
        return ENoLck, done + s.rest, fr;
      }
      ahead, fr := [s.rest[0].(slot := fr[0])] + ahead, fr[1..];
      copy := ahead[0];
      ahead := ahead[0 := ahead[0].(end := s.cs - 1)];
    } else if left != -1 {
      done := done[left := done[left].(end := s.cs - 1)];
    }
    var rest := s.rest;
    if s.right {
      rest := rest[0 := rest[0].(start := s.ce + 1)];
    }
    assert ahead == Fresh(s, entry, copy) && done == Kept(s) && fr == s.free[Spent(s)..];
    assert rest == Ahead(s);
    FinalAll(list, free, req, at, s, v, entry, copy);
    EndedOk(req, s, entry, copy);
    return Ok, done + ahead + rest, fr;
  }

  lemma EndedOk(req: FileLock, s: State, entry: FileLock, copy: FileLock)
    requires Placed(req, s) && Taken(req, s, entry, copy) && (s.added || req.kind != UnLck)
    requires (s.added ==> entry == FileLock(0, 0, UnLck, 0, 0)) && (s.left != |s.done| ==> copy == entry)
    ensures Ended(req, s) == (Ok, Final(s, entry, copy), s.free[Spent(s)..])
  {
  }

  lemma EndFacts(list: seq<FileLock>, free: seq<nat>, req: FileLock, at: nat, s: State, v: View)
    requires Going(list, free, req, at, s, v) && (ListOK(list) ==> Halted(list, req, s, v))
    ensures Bag(s.done + s.rest) + multiset(s.free) == Bag(list) + multiset(free)
    ensures Loose(s.done + s.rest) && Within(list, req, s.done + s.rest)
    ensures !s.added ==> s.done + s.rest == list && s.free == free
    ensures s.left == -1 || 0 <= s.left <= |s.done|
    ensures (s.right ==> s.rest != []) && (s.left == |s.done| ==> s.right)
    ensures ListOK(list) && s.left == |s.done| ==> s.done + s.rest == list && s.free == free
    ensures ListOK(list) && !s.added && req.kind == UnLck ==> !Touches(list, req) && Need(list, req) == 0
    ensures ListOK(list) && s.added && req.kind == UnLck ==> Touches(list, req)
    ensures ListOK(list) && (s.added || req.kind != UnLck) ==>
      Spent(s) == Need(list, req) && (Spent(s) > 0 ==> s.free == free)
  {
    hide Scanning, ListOK, Halted, Touches, Within, Bag, Clashes, Need, Tied, Loose;
    WholeLoose(list, free, req, at, s);
    if ListOK(list) {
      EndSeen(list, free, req, at, s, v);
    }
  }

  lemma WholeLoose(list: seq<FileLock>, free: seq<nat>, req: FileLock, at: nat, s: State)
    requires Request(list, req, at) && Loosely(list, free, req, at, s)
    ensures Bag(s.done + s.rest) + multiset(s.free) == Bag(list) + multiset(free)
    ensures Loose(s.done + s.rest)
    ensures s.left == -1 || 0 <= s.left <= |s.done|
    ensures (s.right ==> s.rest != []) && (s.left == |s.done| ==> s.right)
  {
    hide Within, Grown, LooseOK, Bag;
    var p, mid := |list| - |s.rest|, s.done[at..];
    BagAppend(s.done, s.rest);
    assert s.done == list[..at] + mid;
    Regrouped(list, at, p, mid, req.owner);
    assert list[..at] + mid + list[p..] == s.done + s.rest;
    LooseParts(list, at, p, mid);
  }

  lemma EndSeen(list: seq<FileLock>, free: seq<nat>, req: FileLock, at: nat, s: State, v: View)
    requires Loosely(list, free, req, at, s) && Scanning(list, free, req, s, v) && Tied(s, v) && Halted(list, req, s, v)
    ensures s.left == |s.done| ==> s.done + s.rest == list && s.free == free
    ensures !s.added && req.kind == UnLck ==> !Touches(list, req) && Need(list, req) == 0
    ensures s.added && req.kind == UnLck ==> Touches(list, req)
    ensures s.added || req.kind != UnLck ==> Spent(s) == Need(list, req) && (Spent(s) > 0 ==> s.free == free)
  {
    ScanRange(list, free, req, s, v);
    LeftSplit(list, free, req, at, s, v);
    if s.added || req.kind != UnLck {
      SpentIsNeed(list, free, req, s, v);
    } else {
      NothingTouched(list, free, req, at, s, v);
    }
  }

  lemma LeftSplit(list: seq<FileLock>, free: seq<nat>, req: FileLock, at: nat, s: State, v: View)
    requires Loosely(list, free, req, at, s) && Scanning(list, free, req, s, v) && Tied(s, v)
    ensures s.left == |s.done| ==>
      s.done + s.rest == list && s.free == free && s.right && s.rest != [] && s.rest[0].start < s.cs
    ensures s.right ==>
      s.rest != [] && s.rest[0].owner == req.owner && s.rest[0].kind != req.kind
      && s.rest[0].end > s.ce
    ensures req.kind == UnLck && s.added ==> Touches(list, req)
  {
    hide Scan, Within, Counted, Grown, Shape, Past, ListOK, Touches;
    assert v.W == v.W[..v.n] + v.W[v.n..];
  }

  /** An unlock request that touches nothing has nothing to do. */
  lemma NothingTouched(list: seq<FileLock>, free: seq<nat>, req: FileLock, at: nat, s: State, v: View)
    requires Loosely(list, free, req, at, s) && Scanning(list, free, req, s, v) && Tied(s, v) && Halted(list, req, s, v)
    requires !s.added && req.kind == UnLck
    ensures !Touches(list, req) && Need(list, req) == 0
  {
    hide Scanning, Loosely, Halted, Holds;
    NoRight(list, free, req, at, s, v);
    forall i | 0 <= i < |list| && list[i].owner == req.owner
      ensures list[i].end < req.start || list[i].start > req.end
    {
      Untouched(list, free, req, s, v, i);
    }
    NoneTouched(list, req);
  }

  lemma NoneTouched(list: seq<FileLock>, req: FileLock)
    requires ListOK(list) && req.kind == UnLck && req.start <= req.end
    requires forall i :: 0 <= i < |list| && list[i].owner == req.owner ==>
      list[i].end < req.start || list[i].start > req.end
    ensures !Touches(list, req) && Need(list, req) == 0
  {
    forall i | 0 <= i < |list|
      ensures !OverAt(list, req, i)
    {
      assert LockOK(list[i]);
    }
  }

  lemma Untouched(list: seq<FileLock>, free: seq<nat>, req: FileLock, s: State, v: View, i: nat)
    requires Scanning(list, free, req, s, v) && v.W == list && v.left == -1 && s.cs == req.start && s.ce == req.end
    requires Stopped(req, v.W, v.e, v.n, s.cs, s.ce, false) && i < |list| && list[i].owner == req.owner
    ensures list[i].end < req.start || list[i].start > req.end
  {
    ScanRange(list, free, req, s, v);
    hide Scanning, SameEffect, ListOK;
    if i < v.n {
      assert Before(v.W[i], req.kind, s.cs);
    } else {
      assert After(v.W[i], req.kind, s.ce);
    }
  }

  lemma NoRight(list: seq<FileLock>, free: seq<nat>, req: FileLock, at: nat, s: State, v: View)
    requires Loosely(list, free, req, at, s) && Scanning(list, free, req, s, v) && Halted(list, req, s, v)
    requires !s.added && req.kind == UnLck
    ensures !s.right && Stopped(req, v.W, v.e, v.n, s.cs, s.ce, false)
    ensures ListOK(list) && v.W == list && v.left == -1 && s.cs == req.start && s.ce == req.end && req.start <= req.end
  {
    hide Within, Counted, Shape, SameEffect;
    assert forall i :: 0 <= i < |list| ==> LockOK(list[i]);
  }

  lemma FinalAll(list: seq<FileLock>, free: seq<nat>, req: FileLock, at: nat, s: State, v: View, entry: FileLock,
          copy: FileLock)
    requires Going(list, free, req, at, s, v) && (ListOK(list) ==> Halted(list, req, s, v))
      && Taken(req, s, entry, copy)
    requires s.added || req.kind != UnLck
    ensures s.right ==> s.rest != []
    ensures Bag(Final(s, entry, copy)) + multiset(s.free[Spent(s)..]) == Bag(list) + multiset(free)
    ensures Loose(Final(s, entry, copy)) && Within(list, req, Final(s, entry, copy))
    ensures ListOK(list) ==>
      Repainted(list, req, Final(s, entry, copy)) && (ListOK(Final(s, entry, copy)) <==> !Clashes(list, req))
  {
    hide Scanning, ListOK, Halted, Within, Bag, Repainted, Request, Clashes, Tied, Loose, Final, Taken;
    FinalWithin(list, free, req, at, s, entry, copy);
    FinalLoose(list, free, req, at, s, entry, copy);
    FinalCounted(list, free, req, at, s, entry, copy);
    BagEmpty();
    if ListOK(list) {
      FinalRight(list, free, req, at, s, v, entry, copy);
    }
  }
}
