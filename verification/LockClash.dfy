/** Requests that reach the largest offset (fs/locks.c:297).  The test whether a lock of the same kind lies clear of the
    request adds one to the request's end, which then wraps: every such lock looks clear of it, and the request is
    put in front of it unmerged. */
module LockClash {
  import opened FileLocks
  import opened LockScan
  import opened LockFinish

  /** Lock i is one that the request touches and should merge with, but does not. */
  predicate ClashAt(list: seq<FileLock>, req: FileLock, i: nat)
    requires i < |list|
  {
    && list[i].owner == req.owner && list[i].kind == req.kind
    && req.end == OFFSET_MAX && list[i].end >= req.start - 1
  }

  ghost predicate Clashes(list: seq<FileLock>, req: FileLock) {
    exists i :: 0 <= i < |list| && ClashAt(list, req, i)
  }

  /** The first such lock; the length of the list when there is none. */
  function FirstClash(list: seq<FileLock>, req: FileLock): (m: nat)
    ensures m <= |list| && (m < |list| ==> ClashAt(list, req, m))
    ensures forall i :: 0 <= i < m ==> !ClashAt(list, req, i)
  {
    if list == [] then 0
    else
      var n := |list| - 1;
      var m := FirstClash(list[..n], req);
      assert forall i :: 0 <= i < n ==> ClashAt(list[..n], req, i) == ClashAt(list, req, i);
      if m < n || ClashAt(list, req, n) then m else n + 1
  }

  lemma FirstClashIs(list: seq<FileLock>, req: FileLock, m: nat)
    requires m <= |list| && (m < |list| ==> ClashAt(list, req, m))
    requires forall i :: 0 <= i < m ==> !ClashAt(list, req, i)
    ensures FirstClash(list, req) == m && (Clashes(list, req) <==> m < |list|)
  {
  }

  /** What the list holds after a request was granted: the request is painted over it, except that the owner's locks
      from the first clash on stay as they were. */
  ghost predicate Repainted(list: seq<FileLock>, req: FileLock, F: seq<FileLock>) {
    forall o, k, x {:trigger Holds(F, o, k, x)} {:trigger Painted(list, req, o, k, x)} ::
      Holds(F, o, k, x) <==> Painted(list, req, o, k, x) || (o == req.owner && Holds(Unmerged(list, req), o, k, x))
  }

  function Unmerged(list: seq<FileLock>, req: FileLock): seq<FileLock> {
    list[FirstClash(list, req)..]
  }

  /** Without a clash that is just painting. */
  lemma NoClashPaints(list: seq<FileLock>, req: FileLock, F: seq<FileLock>)
    requires !Clashes(list, req)
    ensures Repainted(list, req, F) <==> SameList(list, req, F)
  {
    hide Holds, Painted;
    var m := FirstClash(list, req);
    assert m == |list|;
    NothingHeld(Unmerged(list, req));
  }

  lemma NothingHeld(L: seq<FileLock>)
    requires L == []
    ensures forall o, k, x :: !Holds(L, o, k, x)
  {
  }

  /** With one, the bytes still come out right exactly when the owner has no lock of another kind from there on. */
  lemma StillPainted(list: seq<FileLock>, req: FileLock, F: seq<FileLock>)
    requires ListOK(list) && Repainted(list, req, F) && 0 <= req.start <= req.end <= OFFSET_MAX
    ensures SameList(list, req, F) <==>
      forall i :: FirstClash(list, req) <= i < |list| && list[i].owner == req.owner ==> list[i].kind == req.kind
  {
    var m := FirstClash(list, req);
    var U := Unmerged(list, req);
    if i :| m <= i < |list| && list[i].owner == req.owner && list[i].kind != req.kind {
      ListPair(list, m, i);
      assert LockOK(list[i]) && LockOK(list[m]);
      var k, x := list[i].kind, list[i].start;
      assert U[i - m] == list[i];
      assert Holds(U, req.owner, k, x);
      assert Holds(F, req.owner, k, x) && !Painted(list, req, req.owner, k, x);
    } else {
      SameKindPaints(list, req, F, m);
    }
  }

  lemma SameKindPaints(list: seq<FileLock>, req: FileLock, F: seq<FileLock>, m: nat)
    requires ListOK(list) && Repainted(list, req, F) && m == FirstClash(list, req)
    requires forall i :: m <= i < |list| && list[i].owner == req.owner ==> list[i].kind == req.kind
    ensures SameList(list, req, F)
  {
    var U := Unmerged(list, req);
    forall o, k, x
      ensures Holds(F, o, k, x) <==> Painted(list, req, o, k, x)
    {
      if o == req.owner && Holds(U, o, k, x) {
        var j :| 0 <= j < |U| && U[j].owner == o && U[j].kind == k && Covers(U[j], x);
        assert list[m + j] == U[j] && LockOK(list[m + j]);
        assert Holds(list, o, k, x);
      }
    }
  }

  // ---- how many new entries a request needs ----

  /** Lock i's entry becomes the request's. */
  predicate ReusesAt(list: seq<FileLock>, req: FileLock, i: nat)
    requires i < |list|
  {
    && list[i].owner == req.owner
    && (if list[i].kind == req.kind
        then req.end < OFFSET_MAX && list[i].end >= req.start - 1 && list[i].start <= req.end + 1
        else req.start <= list[i].start && list[i].end <= req.end)
  }

  /** Lock i reaches over the request on both sides, and is of another kind. */
  predicate OverAt(list: seq<FileLock>, req: FileLock, i: nat)
    requires i < |list|
  {
    && list[i].owner == req.owner && list[i].kind != req.kind
    && list[i].start < req.start && list[i].end > req.end
  }

  ghost predicate Reuses(list: seq<FileLock>, req: FileLock) {
    exists i :: 0 <= i < FirstClash(list, req) && ReusesAt(list, req, i)
  }

  ghost predicate Over(list: seq<FileLock>, req: FileLock) {
    exists i :: 0 <= i < |list| && OverAt(list, req, i)
  }

  /** One entry for the request itself, unless it is an unlock or takes over an old one, and one for the left part of
      a lock that reaches over it. */
  ghost function Need(list: seq<FileLock>, req: FileLock): nat {
    (if req.kind != UnLck && !Reuses(list, req) then 1 else 0) + (if Over(list, req) then 1 else 0)
  }

  // ---- the list after a clash ----

  /** The scan would have gone the same way if the locks ahead were not there. */
  lemma {:induction false} DropAhead(list: seq<FileLock>, req: FileLock, W: seq<FileLock>, at: nat, e: nat, n: nat,
                                     left: int, cs: int, ce: int, hit: bool, m: nat)
    requires ListOK(list) && Scan(list, req, W, at, e, n, left, cs, ce, hit)
    requires cs == req.start && ce == req.end && m <= |list| && W[n..] == list[m..]
    ensures m + (e - n) <= |list|
    ensures Scan(list[..m] + list[m + (e - n)..], req, W[..n] + W[e..], at, n, n, left, cs, ce, hit)
    decreases e - n
  {
    assert |W| - n == |list| - m;
    if n == e {
      assert list[..m] + list[m..] == list && W[..n] + W[n..] == W;
    } else {
      var D, V := Delete(list, m), Delete(W, n);
      assert W[n..][0] == list[m..][0];
      DropOne(list, req, W, at, e, n, left, cs, ce, hit, m);
      assert V[n..] == W[n..][1..] && D[m..] == list[m..][1..];
      DeleteOK(list, m);
      DropAhead(D, req, V, at, e - 1, n, left, cs, ce, hit, m);
      assert D[..m] + D[m + (e - 1 - n)..] == list[..m] + list[m + (e - n)..];
      assert V[..n] + V[e - 1..] == W[..n] + W[e..];
    }
  }

  lemma DropOne(list: seq<FileLock>, req: FileLock, W: seq<FileLock>, at: nat, e: nat, n: nat, left: int, cs: int,
                ce: int, hit: bool, m: nat)
    requires ListOK(list) && Scan(list, req, W, at, e, n, left, cs, ce, hit) && n < e
    requires cs == req.start && ce == req.end && m < |list| && W[n] == list[m]
    ensures Scan(Delete(list, m), req, Delete(W, n), at, e - 1, n, left, cs, ce, hit)
  {
    DeleteOK(W, n);
    DeleteGroup(W, req.owner, at, e, n);
    var D, V := Delete(list, m), Delete(W, n);
    forall i | n <= i < e - 1
      ensures V[i] == W[i + 1]
    {
    }
    assert SameEffect(D, req, V, cs, ce) by {
      DropEffect(list, req, W, n, m);
    }
    hide SameEffect, ListOK;
    assert Scan(D, req, V, at, e - 1, n, left, cs, ce, hit);
  }

  lemma DropEffect(list: seq<FileLock>, req: FileLock, W: seq<FileLock>, n: nat, m: nat)
    requires ListOK(list) && ListOK(W) && m < |list| && n < |W| && W[n] == list[m]
    requires SameEffect(list, req, W, req.start, req.end)
    ensures SameEffect(Delete(list, m), req, Delete(W, n), req.start, req.end)
  {
    forall o, k, x
      ensures Painted(Delete(W, n), req.(start := req.start, end := req.end), o, k, x)
        <==> Painted(Delete(list, m), req, o, k, x)
    {
      hide ListOK, Holds, SameEffect;
      DeleteHolds(W, n, o, k, x);
      DeleteHolds(list, m, o, k, x);
      EffectAt(list, req, W, req.start, req.end, o, k, x);
    }
  }

  /** Put the request in front of a lock it should have merged with. */
  lemma ClashPut(list: seq<FileLock>, req: FileLock, W: seq<FileLock>, at: nat, e: nat, n: nat, left: int, cs: int,
                 ce: int, hit: bool, c: FileLock)
    requires ListOK(list) && Scan(list, req, W, at, e, n, left, cs, ce, hit) && n < e && -1 <= left
    requires |W| - n <= |list| && W[n..] == list[|list| - (|W| - n)..]
    requires cs == req.start && ce == req.end == OFFSET_MAX && req.kind != UnLck
    requires FirstClash(list, req) == |list| - (|W| - n)
    requires c.owner == req.owner && c.kind == req.kind && c.start == cs && c.end == ce
    ensures !ListOK(Insert(Trimmed(W, n, left, cs, ce, false), n, c))
    ensures Repainted(list, req, Insert(Trimmed(W, n, left, cs, ce, false), n, c))
  {
    var m := |list| - (|W| - n);
    var F := Insert(Trimmed(W, n, left, cs, ce, false), n, c);
    assert Group(W, req.owner, at, e);
    DropAhead(list, req, W, at, e, n, left, cs, ce, hit, m);
    var D, V := list[..m] + list[m + (e - n)..], W[..n] + W[e..];
    PutOK(D, req, V, at, n, n, left, cs, ce, hit, false, c);
    var F0 := Insert(Trimmed(V, n, left, cs, ce, false), n, c);
    Unfold(list, W, n, e, m, left, cs, ce, c);
    NotApart(W, F, n, c);
    hide ListOK, Scan, Holds, Trimmed, Painted;
    forall o, k, x
      ensures Holds(F, o, k, x) <==> Painted(list, req, o, k, x) || (o == req.owner && Holds(list[m..], o, k, x))
    {
      assert Painted(D, req, o, k, x) <==> Holds(F0, o, k, x);
      ClashHolds(list, req, W, at, e, n, m, F0, o, k, x);
    }
  }

  lemma ClashHolds(list: seq<FileLock>, req: FileLock, W: seq<FileLock>, at: nat, e: nat, n: nat, m: nat,
                   F0: seq<FileLock>, o: nat, k: Kind, x: int)
    requires Group(W, req.owner, at, e) && at <= n <= e && m + (e - n) <= |list| && W[n..] == list[m..]
    requires n + 1 <= |F0|
    requires Painted(list[..m] + list[m + (e - n)..], req, o, k, x) <==> Holds(F0, o, k, x)
    ensures Holds(F0[..n + 1] + list[m..m + (e - n)] + F0[n + 1..], o, k, x)
      <==> Painted(list, req, o, k, x) || (o == req.owner && Holds(list[m..], o, k, x))
  {
    var seg, tail := list[m..m + (e - n)], list[m + (e - n)..];
    OwnersOnly(W, list, req.owner, at, e, n, m, o, k, x);
    hide Holds, Group;
    HoldsThree(F0[..n + 1], seg, F0[n + 1..], o, k, x);
    HoldsConcat(F0[..n + 1], F0[n + 1..], o, k, x);
    assert F0[..n + 1] + F0[n + 1..] == F0;
    HoldsThree(list[..m], seg, tail, o, k, x);
    HoldsConcat(list[..m], tail, o, k, x);
    assert list[..m] + seg + tail == list;
    HoldsConcat(seg, tail, o, k, x);
    assert seg + tail == list[m..];
  }

  lemma HoldsThree(A: seq<FileLock>, B: seq<FileLock>, C: seq<FileLock>, o: nat, k: Kind, x: int)
    ensures Holds(A + B + C, o, k, x) <==> Holds(A, o, k, x) || Holds(B, o, k, x) || Holds(C, o, k, x)
  {
    HoldsConcat(A + B, C, o, k, x);
    HoldsConcat(A, B, o, k, x);
  }

  lemma OwnersOnly(W: seq<FileLock>, list: seq<FileLock>, owner: nat, at: nat, e: nat, n: nat, m: nat, o: nat, k: Kind,
          x: int)
    requires Group(W, owner, at, e) && at <= n <= e && m + (e - n) <= |list| && W[n..] == list[m..]
    ensures Holds(list[m..m + (e - n)], o, k, x) ==> o == owner
    ensures o == owner ==> !Holds(list[m + (e - n)..], o, k, x)
  {
    forall i | m <= i < |list|
      ensures list[i] == W[n + (i - m)]
    {
      assert W[n..][i - m] == list[m..][i - m];
    }
  }

  lemma Unfold(list: seq<FileLock>, W: seq<FileLock>, n: nat, e: nat, m: nat, left: int, cs: int, ce: int, c: FileLock)
    requires n <= e <= |W| && m + (e - n) <= |list| && W[n..] == list[m..] && -1 <= left < n
    ensures var F0 := Insert(Trimmed(W[..n] + W[e..], n, left, cs, ce, false), n, c);
            n + 1 <= |F0|
            && Insert(Trimmed(W, n, left, cs, ce, false), n, c) == F0[..n + 1] + list[m..m + (e - n)] + F0[n + 1..]
  {
    assert W[n..][..e - n] == list[m..][..e - n];
    assert W[n..e] == list[m..m + (e - n)];
  }

  lemma NotApart(W: seq<FileLock>, F: seq<FileLock>, n: nat, c: FileLock)
    requires ListOK(W) && n < |W| && n + 1 < |F| && F[n] == c && F[n + 1] == W[n]
    requires c.owner == W[n].owner && c.end == OFFSET_MAX
    ensures !ListOK(F)
  {
    assert LockOK(W[n]);
    assert !PairOK(F, n, n + 1);
  }
}
