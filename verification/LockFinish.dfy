/** The end of lock_it (fs/locks.c:370-393): trim the locks that reach into the request from either
    side, or split the one that reaches over it, and put the request in its place. */
module LockFinish {
  import opened FileLocks
  import opened LockScan

  /** The scan has stopped: locks ahead are clear of the request, except that with `right` the
      next one reaches over the request's end. */
  ghost predicate Stopped(req: FileLock, W: seq<FileLock>, e: nat, n: nat, cs: int, ce: int, right: bool) {
    && e <= |W|
    && (right ==> n < e && W[n].kind != req.kind && cs <= W[n].end && W[n].start <= ce < W[n].end)
    && (forall i :: (if right then n + 1 else n) <= i < e ==> After(W[i], req.kind, ce))
  }

  /** Old locks trimmed to outside the range. */
  ghost function Trimmed(W: seq<FileLock>, n: nat, left: int, cs: int, ce: int, right: bool): seq<FileLock>
    requires n <= |W| && (right ==> n < |W|) && -1 <= left < |W|
  {
    var W1 := if right then W[n := W[n].(start := ce + 1)] else W;
    if left != -1 && left < n then W1[left := W1[left].(end := cs - 1)] else W1
  }

  lemma TrimmedOK(list: seq<FileLock>, req: FileLock, W: seq<FileLock>, at: nat, e: nat, n: nat, left: int, cs: int,
          ce: int, hit: bool, right: bool)
    requires Scan(list, req, W, at, e, n, left, cs, ce, hit) && Stopped(req, W, e, n, cs, ce, right) && -1 <= left
    ensures ListOK(Trimmed(W, n, left, cs, ce, right))
    ensures forall o, k, x :: Holds(Trimmed(W, n, left, cs, ce, right), o, k, x) ==> Holds(W, o, k, x)
    ensures forall k, x :: cs <= x <= ce && !(right && W[n].start < cs) ==>
      !Holds(Trimmed(W, n, left, cs, ce, right), req.owner, k, x)
    ensures forall o, k, x ::
      (Holds(W, o, k, x) && !(o == req.owner && cs <= x <= ce) && !(right && o == req.owner && W[n].start <= x < cs))
      ==> Holds(Trimmed(W, n, left, cs, ce, right), o, k, x)
  {
    hide SameEffect;
    var T := Trimmed(W, n, left, cs, ce, right);
    var W1 := if right then W[n := W[n].(start := ce + 1)] else W;
    if right {
      assert LockOK(W[n]);
      ShrinkOK(W, n, W1[n]);
    }
    if left != -1 {
      assert LockOK(W[left]);
      ShrinkOK(W1, left, T[left]);
    }
    forall o, k, x
      ensures Holds(T, o, k, x) ==> Holds(W, o, k, x)
      ensures o == req.owner && cs <= x <= ce && !(right && W[n].start < cs) ==> !Holds(T, o, k, x)
      ensures
        && Holds(W, o, k, x)
        && !(o == req.owner && cs <= x <= ce)
        && !(right && o == req.owner && W[n].start <= x < cs) ==>
          Holds(T, o, k, x)
    {
      TrimmedHolds(list, req, W, at, e, n, left, cs, ce, hit, right, o, k, x);
    }
  }

  lemma TrimmedHolds(list: seq<FileLock>, req: FileLock, W: seq<FileLock>, at: nat, e: nat, n: nat, left: int, cs: int,
          ce: int, hit: bool, right: bool,
                     o: nat, k: Kind, x: int)
    requires Scan(list, req, W, at, e, n, left, cs, ce, hit) && Stopped(req, W, e, n, cs, ce, right) && -1 <= left
    ensures Holds(Trimmed(W, n, left, cs, ce, right), o, k, x) ==> Holds(W, o, k, x)
    ensures o == req.owner && cs <= x <= ce && !(right && W[n].start < cs) ==>
      !Holds(Trimmed(W, n, left, cs, ce, right), o, k, x)
    ensures Holds(W, o, k, x) && !(o == req.owner && cs <= x <= ce)
      && !(right && o == req.owner && W[n].start <= x < cs)
      ==> Holds(Trimmed(W, n, left, cs, ce, right), o, k, x)
  {
    hide SameEffect, ListOK, Holds;
    var T := Trimmed(W, n, left, cs, ce, right);
    var W1 := if right then W[n := W[n].(start := ce + 1)] else W;
    if right {
      assert LockOK(W[n]) by { AllOK(W, n); }
      ShrinkOK(W, n, W1[n]);
      ShrinkHolds(W, n, W1[n], o, k, x);
    }
    if left != -1 {
      assert LockOK(W[left]) by { AllOK(W, left); }
      ShrinkHolds(W1, left, T[left], o, k, x);
    }
    if o == req.owner && cs <= x <= ce && !(right && W[n].start < cs) {
      NoneHere(req, W, T, at, e, n, left, cs, ce, right, k, x);
    }
  }

  lemma AllOK(W: seq<FileLock>, i: nat)
    requires ListOK(W) && i < |W|
    ensures LockOK(W[i])
  {
  }

  lemma NoneHere(req: FileLock, W: seq<FileLock>, T: seq<FileLock>, at: nat, e: nat, n: nat, left: int, cs: int,
          ce: int, right: bool, k: Kind, x: int)
    requires Group(W, req.owner, at, e) && at <= n <= e && Stopped(req, W, e, n, cs, ce, right) && -1 <= left < n
    requires forall i :: at <= i < n && i != left ==> Before(W[i], req.kind, cs)
    requires T == Trimmed(W, n, left, cs, ce, right) && cs <= x <= ce
    ensures !Holds(T, req.owner, k, x)
  {
    forall i | 0 <= i < |T| && T[i].owner == req.owner
      ensures !Covers(T[i], x)
    {
      assert W[i].owner == req.owner;
    }
  }

  /** Put the request between the trimmed locks. */
  lemma PutOK(list: seq<FileLock>, req: FileLock, W: seq<FileLock>, at: nat, e: nat, n: nat, left: int, cs: int,
          ce: int, hit: bool, right: bool, c: FileLock)
    requires Scan(list, req, W, at, e, n, left, cs, ce, hit) && Stopped(req, W, e, n, cs, ce, right) && -1 <= left
    requires !(right && W[n].start < cs)
    requires req.kind != UnLck && c.owner == req.owner && c.kind == req.kind && c.start == cs && c.end == ce
    ensures ListOK(Insert(Trimmed(W, n, left, cs, ce, right), n, c))
    ensures SameList(list, req, Insert(Trimmed(W, n, left, cs, ce, right), n, c))
  {
    hide SameEffect, Holds;
    var T := Trimmed(W, n, left, cs, ce, right);
    TrimmedOK(list, req, W, at, e, n, left, cs, ce, hit, right);
    TrimmedGroup(req, W, at, e, n, left, cs, ce, right);
    InsertOK(T, n, c);
    forall o, k, x
      ensures Holds(Insert(T, n, c), o, k, x) <==> Painted(list, req, o, k, x)
    {
      TrimmedHolds(list, req, W, at, e, n, left, cs, ce, hit, right, o, k, x);
      InsertHolds(T, n, c, o, k, x);
      EffectAt(list, req, W, cs, ce, o, k, x);
    }
  }

  /** The new list holds what the request paints on the old one. */
  ghost predicate SameList(list: seq<FileLock>, req: FileLock, F: seq<FileLock>) {
    forall o, k, x {:trigger Holds(F, o, k, x)} {:trigger Painted(list, req, o, k, x)} ::
      Holds(F, o, k, x) <==> Painted(list, req, o, k, x)
  }

  lemma TrimmedGroup(req: FileLock, W: seq<FileLock>, at: nat, e: nat, n: nat, left: int, cs: int, ce: int, right: bool)
    requires Group(W, req.owner, at, e) && at <= n <= e && Stopped(req, W, e, n, cs, ce, right) && -1 <= left < n
    requires forall i :: at <= i < n && i != left ==> Before(W[i], req.kind, cs)
    requires left != -1 ==> W[left].kind != req.kind
    ensures var T := Trimmed(W, n, left, cs, ce, right);
            && |T| == |W| && Group(T, req.owner, at, e)
            && (forall i :: at <= i < n ==> T[i].end < cs && (T[i].kind == req.kind ==> T[i].end + 1 < cs))
            && (forall i :: n <= i < e ==> T[i].start > ce && (T[i].kind == req.kind ==> T[i].start > ce + 1))
  {
  }

  /** With F_UNLCK the trimmed locks are the answer. */
  lemma UnlockOK(list: seq<FileLock>, req: FileLock, W: seq<FileLock>, at: nat, e: nat, n: nat, left: int, cs: int,
          ce: int, hit: bool, right: bool)
    requires Scan(list, req, W, at, e, n, left, cs, ce, hit) && Stopped(req, W, e, n, cs, ce, right) && -1 <= left
    requires !(right && W[n].start < cs) && req.kind == UnLck
    ensures ListOK(Trimmed(W, n, left, cs, ce, right)) && SameList(list, req, Trimmed(W, n, left, cs, ce, right))
  {
    hide SameEffect, Holds;
    var T := Trimmed(W, n, left, cs, ce, right);
    TrimmedOK(list, req, W, at, e, n, left, cs, ce, hit, right);
    forall o, k, x
      ensures Holds(T, o, k, x) <==> Painted(list, req, o, k, x)
    {
      TrimmedHolds(list, req, W, at, e, n, left, cs, ce, hit, right, o, k, x);
      EffectAt(list, req, W, cs, ce, o, k, x);
    }
  }

  /** One old lock reaches over the request on both sides: a copy becomes its left part. */
  lemma SplitOK(list: seq<FileLock>, req: FileLock, W: seq<FileLock>, at: nat, e: nat, n: nat, cs: int, ce: int,
          copy: FileLock)
    requires Scan(list, req, W, at, e, n, -1, cs, ce, false) && Stopped(req, W, e, n, cs, ce, true)
    requires W[n].start < cs && copy == FileLock(copy.slot, req.owner, W[n].kind, W[n].start, cs - 1)
    ensures var S := Insert(Trimmed(W, n, -1, cs, ce, true), n, copy);
            && ListOK(S) && Group(S, req.owner, at, e + 1)
            && (forall o, k, x {:trigger Holds(S, o, k, x)} ::
                  Holds(S, o, k, x) <==> Holds(W, o, k, x) && !(o == req.owner && cs <= x <= ce))
            && (forall i :: at <= i < n + 1 ==> S[i].end < cs && (S[i].kind == req.kind ==> S[i].end + 1 < cs))
            && (forall i :: n + 1 <= i < e + 1 ==> S[i].start > ce && (S[i].kind == req.kind ==> S[i].start > ce + 1))
  {
    hide SameEffect, Holds;
    var T := Trimmed(W, n, -1, cs, ce, true);
    var S := Insert(T, n, copy);
    assert LockOK(W[n]) by { AllOK(W, n); }
    TrimmedOK(list, req, W, at, e, n, -1, cs, ce, false, true);
    TrimmedGroup(req, W, at, e, n, -1, cs, ce, true);
    assert Apart(copy, T[n]);
    forall i | 0 <= i < n && T[i].owner == req.owner
      ensures Apart(T[i], copy)
    {
      Sorted(W, req.owner, at, e, i, n);
    }
    forall i | n < i < |T| && T[i].owner == req.owner
      ensures Apart(copy, T[i])
    {
      Sorted(W, req.owner, at, e, n, i);
    }
    InsertOK(T, n, copy);
    assert forall i {:trigger S[i]} :: 0 <= i < |S| && i != n ==> S[i] == T[if i < n then i else i - 1];
    forall o, k, x
      ensures Holds(S, o, k, x) <==> Holds(W, o, k, x) && !(o == req.owner && cs <= x <= ce)
    {
      InsertHolds(T, n, copy, o, k, x);
      ShrinkHolds(W, n, T[n], o, k, x);
      SplitHolds(req, W, n, cs, ce, o, k, x);
    }
  }

  lemma SplitHolds(req: FileLock, W: seq<FileLock>, n: nat, cs: int, ce: int, o: nat, k: Kind, x: int)
    requires ListOK(W) && n < |W| && W[n].owner == req.owner && W[n].start < cs <= ce < W[n].end
    ensures o == req.owner && Covers(W[n], x) ==> (Holds(W, o, k, x) <==> k == W[n].kind)
  {
    if o == req.owner && Covers(W[n], x) { HeldHere(W, n, k, x); }
  }

  lemma SplitDone(list: seq<FileLock>, req: FileLock, W: seq<FileLock>, at: nat, e: nat, n: nat, cs: int, ce: int,
          copy: FileLock, c: FileLock)
    requires Scan(list, req, W, at, e, n, -1, cs, ce, false) && Stopped(req, W, e, n, cs, ce, true)
    requires W[n].start < cs && copy == FileLock(copy.slot, req.owner, W[n].kind, W[n].start, cs - 1)
    requires req.kind != UnLck ==> c == FileLock(c.slot, req.owner, req.kind, cs, ce)
    ensures var S := Insert(Trimmed(W, n, -1, cs, ce, true), n, copy);
            var F := if req.kind == UnLck then S else Insert(S, n + 1, c);
            ListOK(F) && SameList(list, req, F)
  {
    hide SameEffect, Holds;
    SplitOK(list, req, W, at, e, n, cs, ce, copy);
    var S := Insert(Trimmed(W, n, -1, cs, ce, true), n, copy);
    var F := if req.kind == UnLck then S else Insert(S, n + 1, c);
    if req.kind != UnLck { InsertOK(S, n + 1, c); }
    forall o, k, x
      ensures Holds(F, o, k, x) <==> Painted(list, req, o, k, x)
    {
      if req.kind != UnLck { InsertHolds(S, n + 1, c, o, k, x); }
      EffectAt(list, req, W, cs, ce, o, k, x);
    }
  }
}
