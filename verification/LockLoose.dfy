/** What lock_it keeps on any list of locks, coalesced or not: other owners' locks, and no byte for the requester
    that he neither asked for nor had before. */
module LockLoose {
  import opened FileLocks

  /** Nobody holds more than before, but for the request; and other owners hold what they held. */
  ghost predicate Within(list: seq<FileLock>, req: FileLock, L: seq<FileLock>) {
    forall o, k, x {:trigger Holds(L, o, k, x)} {:trigger Holds(list, o, k, x)} ::
      && (Holds(L, o, k, x) ==> Holds(list, o, k, x) || (o == req.owner && May(req, k, x)))
      && (o != req.owner && Holds(list, o, k, x) ==> Holds(L, o, k, x))
  }

  predicate May(req: FileLock, k: Kind, x: int) {
    k == req.kind && k != UnLck && Covers(req, x)
  }

  /** A lock of the requester that covers nothing new. */
  ghost predicate Old(list: seq<FileLock>, req: FileLock, l: FileLock) {
    && l.owner == req.owner
    && forall x :: Covers(l, x) ==> Holds(list, req.owner, l.kind, x) || May(req, l.kind, x)
  }

  lemma WithinSame(list: seq<FileLock>, req: FileLock)
    ensures Within(list, req, list)
  {
  }

  lemma {:induction false} MemberHolds(L: seq<FileLock>, i: nat)
    requires i < |L|
    ensures forall x :: Covers(L[i], x) ==> Holds(L, L[i].owner, L[i].kind, x)
  {
  }

  /** A requester's lock in a list that is within bounds covers nothing new. */
  lemma MemberOld(list: seq<FileLock>, req: FileLock, L: seq<FileLock>, i: nat)
    requires Within(list, req, L) && i < |L| && L[i].owner == req.owner
    ensures Old(list, req, L[i])
  {
    MemberHolds(L, i);
    hide Holds;
  }

  lemma WithinReplace(list: seq<FileLock>, req: FileLock, L: seq<FileLock>, i: nat, l: FileLock)
    requires Within(list, req, L) && i < |L| && L[i].owner == req.owner && Old(list, req, l)
    ensures Within(list, req, L[i := l])
  {
    assert L == L[..i] + [L[i]] + L[i + 1..] && L[i := l] == L[..i] + [l] + L[i + 1..];
    forall o, k, x
      ensures Holds(L[i := l], o, k, x) ==> Holds(list, o, k, x) || (o == req.owner && May(req, k, x))
      ensures o != req.owner && Holds(list, o, k, x) ==> Holds(L[i := l], o, k, x)
    {
      HoldsMiddle(L[..i], L[i], L[i + 1..], o, k, x);
      HoldsMiddle(L[..i], l, L[i + 1..], o, k, x);
      hide Holds;
    }
  }

  lemma WithinRemove(list: seq<FileLock>, req: FileLock, L: seq<FileLock>, i: nat)
    requires Within(list, req, L) && i < |L| && L[i].owner == req.owner
    ensures Within(list, req, Delete(L, i))
  {
    assert L == L[..i] + [L[i]] + L[i + 1..];
    forall o, k, x
      ensures Holds(Delete(L, i), o, k, x) ==> Holds(list, o, k, x) || (o == req.owner && May(req, k, x))
      ensures o != req.owner && Holds(list, o, k, x) ==> Holds(Delete(L, i), o, k, x)
    {
      HoldsMiddle(L[..i], L[i], L[i + 1..], o, k, x);
      HoldsConcat(L[..i], L[i + 1..], o, k, x);
      hide Holds;
    }
  }

  lemma WithinInsert(list: seq<FileLock>, req: FileLock, L: seq<FileLock>, i: nat, l: FileLock)
    requires Within(list, req, L) && i <= |L| && Old(list, req, l)
    ensures Within(list, req, Insert(L, i, l))
  {
    assert L == L[..i] + L[i..];
    forall o, k, x
      ensures Holds(Insert(L, i, l), o, k, x) ==> Holds(list, o, k, x) || (o == req.owner && May(req, k, x))
      ensures o != req.owner && Holds(list, o, k, x) ==> Holds(Insert(L, i, l), o, k, x)
    {
      HoldsMiddle(L[..i], l, L[i..], o, k, x);
      HoldsConcat(L[..i], L[i..], o, k, x);
      hide Holds;
    }
  }

  lemma HoldsMiddle(A: seq<FileLock>, l: FileLock, B: seq<FileLock>, o: nat, k: Kind, x: int)
    ensures Holds(A + [l] + B, o, k, x)
      <==> Holds(A, o, k, x) || (l.owner == o && l.kind == k && Covers(l, x)) || Holds(B, o, k, x)
  {
    HoldsConcat(A + [l], B, o, k, x);
    HoldsConcat(A, [l], o, k, x);
    assert Holds([l], o, k, x) <==> l.owner == o && l.kind == k && Covers(l, x) by {
      if l.owner == o && l.kind == k && Covers(l, x) {
        assert [l][0] == l;
      }
    }
  }

  /** A merged range covers nothing but the request and old locks of its kind. */
  ghost predicate Grown(list: seq<FileLock>, req: FileLock, cs: int, ce: int) {
    && 0 <= cs <= req.start <= req.end <= ce <= OFFSET_MAX
    && (req.kind == UnLck ==> cs == req.start && ce == req.end)
    && forall x :: cs <= x <= ce && req.kind != UnLck ==> Holds(list, req.owner, req.kind, x) || May(req, req.kind, x)
  }

  lemma GrownEntry(list: seq<FileLock>, req: FileLock, cs: int, ce: int, slot: nat)
    requires Grown(list, req, cs, ce) && req.kind != UnLck
    ensures Old(list, req, FileLock(slot, req.owner, req.kind, cs, ce))
  {
    hide Holds;
  }

  lemma GrowOver(list: seq<FileLock>, req: FileLock, cs: int, ce: int, fl: FileLock)
    requires Grown(list, req, cs, ce) && Old(list, req, fl) && fl.kind == req.kind && LooseOK(fl)
    requires fl.end >= cs - 1 && fl.start <= ce + 1
    ensures Grown(list, req, if fl.start < cs then fl.start else cs, if fl.end > ce then fl.end else ce)
  {
    hide Holds;
  }

  lemma ShrunkOld(list: seq<FileLock>, req: FileLock, l: FileLock, l': FileLock)
    requires Old(list, req, l) && l'.owner == l.owner && l'.kind == l.kind && l.start <= l'.start && l'.end <= l.end
    ensures Old(list, req, l')
  {
    hide Holds;
  }

  /** New entries of the requester in place of his old ones leave everybody's entries together. */
  lemma Regrouped(list: seq<FileLock>, at: nat, p: nat, mid: seq<FileLock>, o: nat)
    requires Grouped(list) && at <= p <= |list|
    requires forall i :: 0 <= i < at ==> list[i].owner != o
    requires forall i :: at <= i < p ==> list[i].owner == o
    requires at < |list| ==> list[at].owner == o
    requires forall i :: 0 <= i < |mid| ==> mid[i].owner == o
    ensures Grouped(list[..at] + mid + list[p..])
  {
    var F := list[..at] + mid + list[p..];
    var d := p - at - |mid|;
    forall i, j, m | 0 <= i < m < j < |F| && F[i].owner == F[j].owner
      ensures F[m].owner == F[i].owner
    {
      assert F[i] == if i < at then list[i] else if i < at + |mid| then mid[i - at] else list[i + d];
      assert F[j] == if j < at then list[j] else if j < at + |mid| then mid[j - at] else list[j + d];
      assert F[m] == if m < at then list[m] else if m < at + |mid| then mid[m - at] else list[m + d];
      GroupedAt(list, at, p, |mid|, i, j, m, o);
    }
  }

  lemma Together(list: seq<FileLock>, i: nat, m: nat, j: nat)
    requires Grouped(list) && i < m < j < |list|
    ensures list[i].owner == list[j].owner ==> list[m].owner == list[i].owner
  {
  }

  lemma GroupedAt(list: seq<FileLock>, at: nat, p: nat, n: nat, i: nat, j: nat, m: nat, o: nat)
    requires Grouped(list) && at <= p <= |list| && i < m < j < at + n + (|list| - p)
    requires forall i :: 0 <= i < at ==> list[i].owner != o
    requires forall i :: at <= i < p ==> list[i].owner == o
    requires at < |list| ==> list[at].owner == o
    ensures var d := p - at - n;
            var a := if i < at then list[i].owner else if i < at + n then o else list[i + d].owner;
            var b := if j < at then list[j].owner else if j < at + n then o else list[j + d].owner;
            var c := if m < at then list[m].owner else if m < at + n then o else list[m + d].owner;
            a == b ==> c == a
  {
    var d := p - at - n;
    if i < at && j >= at + n {
      if at < j + d {
        Together(list, i, at, j + d);
      }
    } else if at <= i < at + n && j >= at + n && p > at {
      if list[j + d].owner == o && m >= at + n && m + d > at {
        assert list[m + d].owner == o;
      }
    }
  }
}
