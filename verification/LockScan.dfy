/** The scan of lock_it (fs/locks.c:286-368) over the requester's locks.  `W` is the list of old
    locks that survive so far, of which the first n have been passed; `cs..ce` is the range the
    request has grown to by merging. */
module LockScan {
  import opened FileLocks

  /** A passed lock that the request does not touch and could not merge with. */
  predicate Before(l: FileLock, k: Kind, cs: int) {
    l.end < cs && (l.kind == k ==> l.end + 1 < cs)
  }

  /** A lock ahead that the request does not touch and could not merge with. */
  predicate After(l: FileLock, k: Kind, ce: int) {
    l.start > ce && (l.kind == k ==> l.start > ce + 1)
  }

  /** The requester's locks in W are W[at..e], between two other owners' groups. */
  ghost predicate Group(W: seq<FileLock>, o: nat, at: nat, e: nat) {
    && at <= e <= |W|
    && (forall i :: 0 <= i < |W| ==> (W[i].owner == o <==> at <= i < e))
    && (0 < at && e < |W| ==> W[at - 1].owner != W[e].owner)
  }

  /** Painting the grown range over what survives is painting the request over the old list. */
  ghost predicate SameEffect(list: seq<FileLock>, req: FileLock, W: seq<FileLock>, cs: int, ce: int) {
    forall o, k, x {:trigger Painted(list, req, o, k, x)} ::
      Painted(W, req.(start := cs, end := ce), o, k, x) <==> Painted(list, req, o, k, x)
  }

  ghost predicate Scan(list: seq<FileLock>, req: FileLock, W: seq<FileLock>, at: nat, e: nat, n: nat, left: int,
          cs: int, ce: int, hit: bool)
  {
    && ListOK(W) && Group(W, req.owner, at, e) && at <= n <= e
    && 0 <= cs <= req.start <= req.end <= ce <= OFFSET_MAX
    && (req.kind == UnLck ==> cs == req.start && ce == req.end)
    && (forall i :: at <= i < n && i != left ==> Before(W[i], req.kind, cs))
    && (left != -1 ==>
        at <= left == n - 1 && W[left].kind != req.kind && W[left].start < cs <= W[left].end <= ce
        && hit)
    && (hit ==> forall i :: n <= i < e ==> W[i].start > cs)
    && (ce != req.end ==> forall i :: n <= i < e ==> W[i].start > ce)
    && (cs != req.start ==> forall i :: n <= i < e ==> W[i].start >= req.start)
    && (req.end == OFFSET_MAX ==> cs == req.start)
    && SameEffect(list, req, W, cs, ce)
  }

  lemma Sorted(W: seq<FileLock>, o: nat, at: nat, e: nat, i: nat, j: nat)
    requires ListOK(W) && Group(W, o, at, e) && at <= i < j < e
    ensures Apart(W[i], W[j])
  {
    ListPair(W, i, j);
  }

  lemma Skip(list: seq<FileLock>, req: FileLock, W: seq<FileLock>, at: nat, e: nat, n: nat, left: int, cs: int, ce: int,
          hit: bool)
    requires Scan(list, req, W, at, e, n, left, cs, ce, hit) && n < e && Before(W[n], req.kind, cs)
    ensures !hit && Scan(list, req, W, at, e, n + 1, left, cs, ce, hit)
  {
    hide SameEffect;
  }

  /** The lock reaches into the request from the left: keep its left part for later. */
  lemma KeepLeft(list: seq<FileLock>, req: FileLock, W: seq<FileLock>, at: nat, e: nat, n: nat, left: int, cs: int,
          ce: int, hit: bool)
    requires Scan(list, req, W, at, e, n, left, cs, ce, hit) && n < e
    requires W[n].kind != req.kind && W[n].start < cs <= W[n].end <= ce
    ensures !hit && Scan(list, req, W, at, e, n + 1, n, cs, ce, true)
  {
    hide SameEffect;
    forall i | n + 1 <= i < e
      ensures W[i].start > cs
    {
      Sorted(W, req.owner, at, e, n, i);
    }
  }

  lemma DeleteGroup(W: seq<FileLock>, o: nat, at: nat, e: nat, n: nat)
    requires Group(W, o, at, e) && at <= n < e
    ensures Group(Delete(W, n), o, at, e - 1)
  {
  }

  /** The request covers the lock completely: it goes. */
  lemma Cover(list: seq<FileLock>, req: FileLock, W: seq<FileLock>, at: nat, e: nat, n: nat, left: int, cs: int,
          ce: int, hit: bool)
    requires Scan(list, req, W, at, e, n, left, cs, ce, hit) && n < e
    requires cs <= W[n].start && W[n].end <= ce
    ensures Scan(list, req, Delete(W, n), at, e - 1, n, left, cs, ce, true)
  {
    var D := Delete(W, n);
    DeleteOK(W, n);
    DeleteGroup(W, req.owner, at, e, n);
    forall i | n <= i < e - 1
      ensures D[i].start > cs
    {
      Sorted(W, req.owner, at, e, n, i + 1);
    }
    CoverEffect(list, req, W, n, cs, ce);
  }

  lemma CoverEffect(list: seq<FileLock>, req: FileLock, W: seq<FileLock>, n: nat, cs: int, ce: int)
    requires ListOK(W) && n < |W| && W[n].owner == req.owner && cs <= W[n].start && W[n].end <= ce
    requires SameEffect(list, req, W, cs, ce)
    ensures SameEffect(list, req, Delete(W, n), cs, ce)
  {
    hide ListOK, Holds;
    forall o, k, x
      ensures Painted(Delete(W, n), req.(start := cs, end := ce), o, k, x) <==> Painted(list, req, o, k, x)
    {
      DeleteHolds(W, n, o, k, x);
    }
  }

  function Min(a: int, b: int): int { if a < b then a else b }
  function Max(a: int, b: int): int { if a < b then b else a }

  /** A lock of the same kind that overlaps or touches the request: the request grows over it. */
  lemma Merge(list: seq<FileLock>, req: FileLock, W: seq<FileLock>, at: nat, e: nat, n: nat, left: int, cs: int,
          ce: int, hit: bool)
    requires Scan(list, req, W, at, e, n, left, cs, ce, hit) && n < e
    requires W[n].kind == req.kind && W[n].end >= cs - 1 && W[n].start <= ce + 1 && ce < OFFSET_MAX
    ensures Scan(list, req, Delete(W, n), at, e - 1, n, left, Min(cs, W[n].start), Max(ce, W[n].end), true)
  {
    var D := Delete(W, n);
    var cs', ce' := Min(cs, W[n].start), Max(ce, W[n].end);
    assert LockOK(W[n]);
    DeleteOK(W, n);
    DeleteGroup(W, req.owner, at, e, n);
    forall i | n <= i < e - 1
      ensures D[i].start > cs' && D[i].start > W[n].end
    {
      Sorted(W, req.owner, at, e, n, i + 1);
    }
    forall i | at <= i < n && i != left
      ensures Before(D[i], req.kind, cs')
    {
      Sorted(W, req.owner, at, e, i, n);
    }
    if left != -1 { Sorted(W, req.owner, at, e, left, n); }
    MergeEffect(list, req, W, n, cs, ce);
  }

  lemma MergeEffect(list: seq<FileLock>, req: FileLock, W: seq<FileLock>, n: nat, cs: int, ce: int)
    requires ListOK(W) && n < |W| && W[n].owner == req.owner && W[n].kind == req.kind && req.kind != UnLck
    requires W[n].end >= cs - 1 && W[n].start <= ce + 1 && cs <= ce && W[n].start <= W[n].end
    requires SameEffect(list, req, W, cs, ce)
    ensures SameEffect(list, req, Delete(W, n), Min(cs, W[n].start), Max(ce, W[n].end))
  {
    var cs', ce' := Min(cs, W[n].start), Max(ce, W[n].end);
    forall o, k, x
      ensures Painted(Delete(W, n), req.(start := cs', end := ce'), o, k, x) <==> Painted(list, req, o, k, x)
    {
      hide ListOK, SameEffect;
      DeleteHolds(W, n, o, k, x);
      if Covers(W[n], x) { HeldHere(W, n, k, x); }
      EffectAt(list, req, W, cs, ce, o, k, x);
    }
  }

  lemma EffectAt(list: seq<FileLock>, req: FileLock, W: seq<FileLock>, cs: int, ce: int, o: nat, k: Kind, x: int)
    ensures SameEffect(list, req, W, cs, ce) ==>
      (Painted(W, req.(start := cs, end := ce), o, k, x) <==> Painted(list, req, o, k, x))
  {
    hide Holds;
  }

  lemma HeldHere(W: seq<FileLock>, n: nat, k: Kind, x: int)
    requires ListOK(W) && n < |W| && Covers(W[n], x)
    ensures Holds(W, W[n].owner, k, x) <==> k == W[n].kind
  {
    if Holds(W, W[n].owner, k, x) {
      var i :| 0 <= i < |W| && W[i].owner == W[n].owner && W[i].kind == k && Covers(W[i], x);
      OneHolder(W, n, i, x);
    }
  }
}
