/** On a well-formed list the list that lock_it leaves is the right one, unless the request clashes. */
module LockRight {
  import opened FileLocks
  import opened LockScan
  import opened LockFinish
  import opened LockClash
  import opened LockLoose
  import opened LockSteps
  import opened LockDone

  /** `left` in memory and in the scan: they differ for a lock that reaches over the request on both sides. */
  ghost predicate Tied(s: State, v: View) {
    if s.right && s.rest != [] && s.rest[0].start < s.cs
    then s.left == |s.done| && v.left == -1 && !v.hit
    else s.left == v.left
  }

  /** The scan stopped at a lock it should have merged with. */
  ghost predicate Clashed(list: seq<FileLock>, req: FileLock, s: State) {
    !s.right && s.rest != [] && |s.rest| <= |list| && ClashAt(list, req, |list| - |s.rest|)
  }

  /** The scan stopped at the end of the owner's locks, clear of the request, or in a clash. */
  ghost predicate Halted(list: seq<FileLock>, req: FileLock, s: State, v: View) {
    Stopped(req, v.W, v.e, v.n, s.cs, s.ce, s.right) || Clashed(list, req, s)
  }

  lemma ScanRange(list: seq<FileLock>, free: seq<nat>, req: FileLock, s: State, v: View)
    requires Scanning(list, free, req, s, v)
    ensures 0 <= s.cs <= req.start <= req.end <= s.ce <= OFFSET_MAX && v.at <= v.n <= v.e <= |v.W| && -1 <= v.left < v.n
    ensures req.end == OFFSET_MAX ==> s.cs == req.start
    ensures Scan(list, req, v.W, v.at, v.e, v.n, v.left, s.cs, s.ce, v.hit)
    ensures v.left != -1 ==> v.hit && v.W[v.left].kind != req.kind
    ensures |s.rest| == |v.W| - v.n && s.rest == v.W[v.n..] && |s.rest| <= |list| && s.rest == list[|list| - |s.rest|..]
    ensures forall i :: 0 <= i < |s.rest| ==>
      s.rest[i] == list[|list| - |s.rest| + i] == v.W[v.n + i] && LockOK(s.rest[i])
    ensures forall i :: 0 <= i < |s.rest| ==> (s.rest[i].owner == req.owner <==> v.n + i < v.e)
  {
    hide SameEffect, Past;
  }

  /** Nothing ahead is of concern when the scan has stopped clear of it. */
  lemma AheadClear(list: seq<FileLock>, free: seq<nat>, req: FileLock, s: State, v: View, i: nat)
    requires Scanning(list, free, req, s, v) && Stopped(req, v.W, v.e, v.n, s.cs, s.ce, s.right)
    requires |list| - |s.rest| <= i < |list|
    ensures !ClashAt(list, req, i)
    ensures s.cs == req.start && s.ce == req.end ==> !ReusesAt(list, req, i)
    ensures OverAt(list, req, i) ==> s.right && s.rest[0].start < s.cs
  {
    hide Scanning, Scan, Past;
    var j := i - (|list| - |s.rest|);
    RestAt(list, free, req, s, v, j);
    OverHere(list, req, s, v, free);
    if list[i].owner == req.owner && !(s.right && j == 0) {
      assert After(v.W[v.n + j], req.kind, s.ce);
    }
  }

  lemma RestAt(list: seq<FileLock>, free: seq<nat>, req: FileLock, s: State, v: View, j: nat)
    requires Scanning(list, free, req, s, v) && j < |s.rest|
    ensures |s.rest| <= |list| && v.n + j < |v.W| && 0 <= s.cs <= req.start <= req.end <= s.ce
    ensures s.rest[j] == list[|list| - |s.rest| + j] == v.W[v.n + j] && LockOK(s.rest[j])
    ensures s.rest[j].owner == req.owner <==> v.n + j < v.e
  {
    ScanRange(list, free, req, s, v);
  }

  lemma OverHere(list: seq<FileLock>, req: FileLock, s: State, v: View, free: seq<nat>)
    requires Scanning(list, free, req, s, v)
    ensures s.rest != [] && s.rest[0].owner == req.owner && s.rest[0].start < req.start ==> s.cs == req.start
  {
    hide SameEffect, Past;
    assert s.rest != [] ==> s.rest[0] == v.W[v.n];
  }

  lemma StoppedNoClash(list: seq<FileLock>, free: seq<nat>, req: FileLock, s: State, v: View)
    requires Scanning(list, free, req, s, v) && Stopped(req, v.W, v.e, v.n, s.cs, s.ce, s.right)
    ensures !Clashes(list, req)
  {
    ScanRange(list, free, req, s, v);
    var m := |list| - |s.rest|;
    assert Past(list, req, m, s.added);
    forall i | 0 <= i < |list|
      ensures !ClashAt(list, req, i)
    {
      if i >= m {
        AheadClear(list, free, req, s, v, i);
      }
    }
  }

  lemma ClashedFirst(list: seq<FileLock>, free: seq<nat>, req: FileLock, s: State, v: View)
    requires Scanning(list, free, req, s, v) && Clashed(list, req, s)
    ensures FirstClash(list, req) == |list| - |s.rest| && Clashes(list, req)
  {
    FirstClashIs(list, req, |list| - |s.rest|);
  }

  /** The entries that lock_it takes are those the request needs. */
  lemma SpentIsNeed(list: seq<FileLock>, free: seq<nat>, req: FileLock, s: State, v: View)
    requires Scanning(list, free, req, s, v) && Halted(list, req, s, v) && Tied(s, v)
    requires s.left == |s.done| ==> s.right && s.rest != [] && s.rest[0].start < s.cs
    requires s.right ==>
      s.rest != [] && s.rest[0].owner == req.owner && s.rest[0].kind != req.kind
      && s.rest[0].end > s.ce
    requires s.added || req.kind != UnLck
    ensures Spent(s) == Need(list, req) && (Spent(s) > 0 ==> s.free == free)
  {
    ScanRange(list, free, req, s, v);
    var m := |list| - |s.rest|;
    assert Past(list, req, m, s.added);
    ReuseIsEntry(list, free, req, s, v);
    assert Over(list, req) <==> s.left == |s.done| by {
      if s.left == |s.done| {
        assert OverAt(list, req, m);
      } else {
        forall i | 0 <= i < |list|
          ensures !OverAt(list, req, i)
        {
          if i >= m {
            NotOver(list, free, req, s, v, i);
          }
        }
      }
    }
  }

  lemma NotOver(list: seq<FileLock>, free: seq<nat>, req: FileLock, s: State, v: View, i: nat)
    requires Scanning(list, free, req, s, v) && Halted(list, req, s, v) && Tied(s, v) && s.left != |s.done|
    requires |list| - |s.rest| <= i < |list|
    ensures !OverAt(list, req, i)
  {
    ScanRange(list, free, req, s, v);
    if Clashed(list, req, s) {
      assert LockOK(s.rest[i - (|list| - |s.rest|)]);
    } else {
      AheadClear(list, free, req, s, v, i);
    }
  }

  lemma ReuseIsEntry(list: seq<FileLock>, free: seq<nat>, req: FileLock, s: State, v: View)
    requires Scanning(list, free, req, s, v) && Halted(list, req, s, v)
    ensures req.kind != UnLck ==> (s.added <==> Reuses(list, req))
  {
    if req.kind != UnLck {
      if s.added {
        EntryReuses(list, req, |list| - |s.rest|);
      } else {
        forall i | |list| - |s.rest| <= i < FirstClash(list, req)
          ensures !ReusesAt(list, req, i)
        {
          NotReused(list, free, req, s, v, i);
        }
        NoneReuses(list, req, |list| - |s.rest|);
      }
    }
  }

  lemma EntryReuses(list: seq<FileLock>, req: FileLock, m: nat)
    requires Past(list, req, m, true) && req.kind != UnLck
    ensures Reuses(list, req)
  {
    assert !(FirstClash(list, req) < m);
    var i :| 0 <= i < m && ReusesAt(list, req, i);
    assert i < FirstClash(list, req);
  }

  lemma NoneReuses(list: seq<FileLock>, req: FileLock, m: nat)
    requires Past(list, req, m, false) && req.kind != UnLck
    requires forall i :: m <= i < FirstClash(list, req) ==> !ReusesAt(list, req, i)
    ensures !Reuses(list, req)
  {
  }

  lemma NotReused(list: seq<FileLock>, free: seq<nat>, req: FileLock, s: State, v: View, i: nat)
    requires Scanning(list, free, req, s, v) && Halted(list, req, s, v) && !s.added && req.kind != UnLck
    requires |list| - |s.rest| <= i < FirstClash(list, req)
    ensures !ReusesAt(list, req, i)
  {
    if Clashed(list, req, s) {
      ClashedFirst(list, free, req, s, v);
    } else {
      hide Scan, Past, Stopped, FirstClash;
      AheadClear(list, free, req, s, v, i);
    }
  }

  // ---- the list ----

  lemma FinalBetween(req: FileLock, s: State, v: View, entry: FileLock, copy: FileLock)
    requires Layout(req, s, v) && s.left == v.left && -1 <= v.left < v.n && (s.right ==> s.rest != [])
    requires s.added || req.kind != UnLck
    ensures s.left != |s.done|
    ensures var T := Trimmed(v.W, v.n, v.left, s.cs, s.ce, s.right);
            v.n <= |T| && Final(s, entry, copy) ==
              if req.kind == UnLck then T else Insert(T, v.n, if s.added then s.done[v.n] else entry)
  {
    var W, n := v.W, v.n;
    var T := Trimmed(W, n, v.left, s.cs, s.ce, s.right);
    assert s.rest == W[n..];
    Halves(W, n, v.left, s.cs, s.ce, s.right);
    assert Ahead(s) == T[n..];
    KeptIs(req, s, v, T);
    assert LeftPart(s, copy) == [];
    hide Trimmed, Ahead, Kept, Layout, LeftPart;
    if req.kind == UnLck {
      assert T[..n] + [] == T[..n];
      PutBetween(T, n, [], []);
    } else if s.added {
      PutBetween(T, n, [s.done[n]], []);
    } else {
      assert T[..n] + [] == T[..n];
      PutBetween(T, n, [], [entry]);
    }
  }

  lemma PutBetween(T: seq<FileLock>, n: nat, a: seq<FileLock>, b: seq<FileLock>)
    requires n <= |T|
    ensures (T[..n] + a) + ([] + b) + T[n..] == T[..n] + (a + b) + T[n..]
    ensures T[..n] + [] + T[n..] == T && a + [] == a && [] + b == b
  {
  }

  lemma Halves(W: seq<FileLock>, n: nat, left: int, cs: int, ce: int, right: bool)
    requires n <= |W| && (right ==> n < |W|) && -1 <= left < n
    ensures var T := Trimmed(W, n, left, cs, ce, right);
            && |T| == |W|
            && T[..n] == (if left == -1 then W[..n] else W[..n][left := W[left].(end := cs - 1)])
            && T[n..] == if right then [W[n].(start := ce + 1)] + W[n..][1..] else W[n..]
  {
  }

  lemma KeptIs(req: FileLock, s: State, v: View, T: seq<FileLock>)
    requires Layout(req, s, v) && s.left == v.left && -1 <= v.left < v.n <= |T|
    requires T[..v.n] == if v.left == -1 then v.W[..v.n] else v.W[..v.n][v.left := v.W[v.left].(end := s.cs - 1)]
    ensures Kept(s) == T[..v.n] + if Entered(req, s) then [s.done[v.n]] else []
    ensures s.left != |s.done|
  {
    if Entered(req, s) {
      assert s.done == v.W[..v.n] + [s.done[v.n]];
    }
  }

  lemma FinalSplit(req: FileLock, s: State, v: View, entry: FileLock, copy: FileLock)
    requires Layout(req, s, v) && s.left == |s.done| && s.right && s.rest != [] && !Entered(req, s)
    requires s.added || req.kind != UnLck
    ensures var S := Insert(Trimmed(v.W, v.n, -1, s.cs, s.ce, true), v.n, copy.(end := s.cs - 1));
            v.n + 1 <= |S| && Final(s, entry, copy) == if req.kind == UnLck then S else Insert(S, v.n + 1, entry)
  {
    var W, n := v.W, v.n;
    var T := Trimmed(W, n, -1, s.cs, s.ce, true);
    assert s.rest == W[n..] && T == W[n := W[n].(start := s.ce + 1)];
    assert Kept(s) == W[..n] == T[..n];
    assert Ahead(s) == T[n..];
  }

  /** A granted request: the list is painted, but for a clash, and well formed exactly without one. */
  lemma FinalRight(list: seq<FileLock>, free: seq<nat>, req: FileLock, at: nat, s: State, v: View, entry: FileLock,
          copy: FileLock)
    requires Request(list, req, at) && Loosely(list, free, req, at, s) && Taken(req, s, entry, copy)
    requires Scanning(list, free, req, s, v) && Halted(list, req, s, v) && Tied(s, v) && (s.added || req.kind != UnLck)
    ensures Repainted(list, req, Final(s, entry, copy))
    ensures ListOK(Final(s, entry, copy)) <==> !Clashes(list, req)
  {
    hide Request, Taken, ListOK, Repainted, Final, Scanning, Tied, Clashes, Stopped, Grown, Counted, Shape, Within;
    if Clashed(list, req, s) {
      ClashRight(list, free, req, at, s, v, entry, copy);
    } else {
      FinalPainted(list, free, req, at, s, v, entry, copy);
      StoppedNoClash(list, free, req, s, v);
      NoClashPaints(list, req, Final(s, entry, copy));
    }
  }

  lemma ClashRight(list: seq<FileLock>, free: seq<nat>, req: FileLock, at: nat, s: State, v: View, entry: FileLock,
          copy: FileLock)
    requires Request(list, req, at) && Loosely(list, free, req, at, s) && Taken(req, s, entry, copy)
    requires Scanning(list, free, req, s, v) && Clashed(list, req, s) && Tied(s, v) && (s.added || req.kind != UnLck)
    ensures Repainted(list, req, Final(s, entry, copy)) && Clashes(list, req) && !ListOK(Final(s, entry, copy))
  {
    hide Loosely, Request, Scanning, Scan, ListOK;
    RightFacts(list, free, req, at, s, v, entry);
    ClashedFirst(list, free, req, s, v);
    ClashRange(list, free, req, s, v);
    var c := if s.added && v.n < |s.done| then s.done[v.n] else entry;
    hide Loosely, Request, Taken, Scan, ListOK, Repainted, Trimmed, Final, Scanning, Clashes, FirstClash, ClashAt,
      Layout;
    FinalBetween(req, s, v, entry, copy);
    ClashPut(list, req, v.W, v.at, v.e, v.n, v.left, s.cs, s.ce, v.hit, c);
  }

  lemma RightFacts(list: seq<FileLock>, free: seq<nat>, req: FileLock, at: nat, s: State, v: View, entry: FileLock)
    requires Request(list, req, at) && Loosely(list, free, req, at, s) && Scanning(list, free, req, s, v)
    requires !s.added ==> entry == FileLock(entry.slot, req.owner, req.kind, s.cs, s.ce)
    ensures ListOK(list) && Layout(req, s, v) && Marked(req, at, s)
    ensures -1 <= v.left < v.n <= v.e <= |v.W| && Scan(list, req, v.W, v.at, v.e, v.n, v.left, s.cs, s.ce, v.hit)
    ensures Entered(req, s) ==> v.hit && v.n < |s.done|
    ensures req.kind != UnLck ==> var c := if s.added && v.n < |s.done| then s.done[v.n] else entry;
                                  c == FileLock(c.slot, req.owner, req.kind, s.cs, s.ce)
  {
    ScanRange(list, free, req, s, v);
    hide Within, Grown, Counted, Shape, Scan, Past;
  }

  lemma ClashRange(list: seq<FileLock>, free: seq<nat>, req: FileLock, s: State, v: View)
    requires Scanning(list, free, req, s, v) && Clashed(list, req, s)
    ensures s.cs == req.start && s.ce == req.end == OFFSET_MAX && v.n < v.e && req.kind != UnLck
    ensures |v.W| - v.n <= |list| && |v.W| - v.n == |s.rest| && v.W[v.n..] == list[|list| - (|v.W| - v.n)..]
  {
    ScanRange(list, free, req, s, v);
    assert LockOK(s.rest[0]) && s.rest[0] == list[|list| - |s.rest|];
  }

  lemma FinalPainted(list: seq<FileLock>, free: seq<nat>, req: FileLock, at: nat, s: State, v: View, entry: FileLock,
          copy: FileLock)
    requires Request(list, req, at) && Loosely(list, free, req, at, s) && Taken(req, s, entry, copy)
    requires Scanning(list, free, req, s, v) && Stopped(req, v.W, v.e, v.n, s.cs, s.ce, s.right) && Tied(s, v)
    requires s.added || req.kind != UnLck
    ensures ListOK(Final(s, entry, copy)) && SameList(list, req, Final(s, entry, copy))
  {
    hide Loosely, Request, Scanning, Stopped, Final, ListOK, SameList;
    RestHead(list, free, req, at, s, v);
    if s.right && s.rest != [] && s.rest[0].start < s.cs {
      SplitPainted(list, free, req, at, s, v, entry, copy);
    } else {
      BetweenPainted(list, free, req, at, s, v, entry, copy);
    }
  }

  lemma SplitPainted(list: seq<FileLock>, free: seq<nat>, req: FileLock, at: nat, s: State, v: View, entry: FileLock,
          copy: FileLock)
    requires Request(list, req, at) && Loosely(list, free, req, at, s) && Taken(req, s, entry, copy)
    requires Scanning(list, free, req, s, v) && Stopped(req, v.W, v.e, v.n, s.cs, s.ce, s.right) && Tied(s, v)
    requires s.added || req.kind != UnLck
    requires s.right && s.rest != [] && s.rest[0].start < s.cs
    ensures ListOK(Final(s, entry, copy)) && SameList(list, req, Final(s, entry, copy))
  {
    hide Loosely, Request, Scan, ListOK, SameList, Trimmed, Final, Stopped, Scanning, Layout;
    RightFacts(list, free, req, at, s, v, entry);
    RestHead(list, free, req, at, s, v);
    SplitFacts(list, free, req, s, v, copy);
    FinalSplit(req, s, v, entry, copy);
    SplitDone(list, req, v.W, v.at, v.e, v.n, s.cs, s.ce, copy.(end := s.cs - 1), entry);
  }

  lemma BetweenPainted(list: seq<FileLock>, free: seq<nat>, req: FileLock, at: nat, s: State, v: View, entry: FileLock,
          copy: FileLock)
    requires Request(list, req, at) && Loosely(list, free, req, at, s) && Taken(req, s, entry, copy)
    requires Scanning(list, free, req, s, v) && Stopped(req, v.W, v.e, v.n, s.cs, s.ce, s.right) && Tied(s, v)
    requires s.added || req.kind != UnLck
    requires !(s.right && s.rest != [] && s.rest[0].start < s.cs)
    ensures (s.right ==> s.rest != []) && ListOK(Final(s, entry, copy)) && SameList(list, req, Final(s, entry, copy))
  {
    hide Loosely, Request, Scan, ListOK, SameList, Trimmed, Final, Stopped, Scanning, Layout;
    RightFacts(list, free, req, at, s, v, entry);
    RestHead(list, free, req, at, s, v);
    FinalBetween(req, s, v, entry, copy);
    if req.kind == UnLck {
      UnlockOK(list, req, v.W, v.at, v.e, v.n, v.left, s.cs, s.ce, v.hit, s.right);
    } else {
      PutOK(list, req, v.W, v.at, v.e, v.n, v.left, s.cs, s.ce, v.hit, s.right, if s.added then s.done[v.n] else entry);
    }
  }

  lemma RestHead(list: seq<FileLock>, free: seq<nat>, req: FileLock, at: nat, s: State, v: View)
    requires Loosely(list, free, req, at, s) && Scanning(list, free, req, s, v)
    ensures s.right ==> s.rest != [] && s.rest[0].owner == req.owner && v.n < |v.W| && v.W[v.n] == s.rest[0]
    ensures s.rest == v.W[v.n..]
  {
    hide Within, Grown, Counted, Shape, Scan, Past;
  }

  lemma SplitFacts(list: seq<FileLock>, free: seq<nat>, req: FileLock, s: State, v: View, copy: FileLock)
    requires Scanning(list, free, req, s, v) && Tied(s, v) && s.right && s.rest != [] && s.rest[0].start < s.cs
    requires copy == s.rest[0].(slot := copy.slot) && s.rest[0].owner == req.owner
    ensures v.left == -1 && !v.hit && !Entered(req, s) && v.n < |v.W| && v.W[v.n] == s.rest[0]
    ensures copy.(end := s.cs - 1) == FileLock(copy.slot, req.owner, v.W[v.n].kind, v.W[v.n].start, s.cs - 1)
    ensures s.left == |s.done|
  {
  }
}
