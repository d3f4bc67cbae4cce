/** The list that lock_it leaves when it succeeds (fs/locks.c:370-393). */
module LockDone {
  import opened FileLocks
  import opened LockLoose
  import opened LockSteps

  /** Locks in front of `before`, with the end of `left` cut off. */
  function Kept(s: State): seq<FileLock> {
    if 0 <= s.left < |s.done| then s.done[s.left := s.done[s.left].(end := s.cs - 1)] else s.done
  }

  /** New entries at `before`: the left part of a lock that reaches over the request, and the request. */
  function Fresh(s: State, entry: FileLock, copy: FileLock): seq<FileLock> {
    LeftPart(s, copy) + Own(s, entry)
  }

  function LeftPart(s: State, copy: FileLock): seq<FileLock> {
    if s.left == |s.done| then [copy.(end := s.cs - 1)] else []
  }

  function Own(s: State, entry: FileLock): seq<FileLock> {
    if s.added then [] else [entry]
  }

  /** Locks behind, with the start of `right` cut off. */
  function Ahead(s: State): seq<FileLock>
    requires s.right ==> s.rest != []
  {
    if s.right then [s.rest[0].(start := s.ce + 1)] + s.rest[1..] else s.rest
  }

  function Final(s: State, entry: FileLock, copy: FileLock): seq<FileLock>
    requires s.right ==> s.rest != []
  {
    Kept(s) + Fresh(s, entry, copy) + Ahead(s)
  }

  /** Entries taken from the free list. */
  function Spent(s: State): nat {
    (if s.added then 0 else 1) + (if s.left == |s.done| then 1 else 0)
  }

  /** The new entries are the first of the free list. */
  predicate Taken(req: FileLock, s: State, entry: FileLock, copy: FileLock) {
    && |s.free| >= Spent(s)
    && (!s.added ==> req.kind != UnLck && entry == FileLock(s.free[0], req.owner, req.kind, s.cs, s.ce))
    && (s.left == |s.done| ==> s.rest != [] && copy == s.rest[0].(slot := s.free[Spent(s) - 1]))
  }

  // ---- on any list ----

  lemma FinalWithin(list: seq<FileLock>, free: seq<nat>, req: FileLock, at: nat, s: State, entry: FileLock,
          copy: FileLock)
    requires Request(list, req, at) && Loosely(list, free, req, at, s) && Taken(req, s, entry, copy)
    ensures Within(list, req, Final(s, entry, copy))
  {
    assert s.cs <= s.ce && Shape(list, req, at, s.done, s.rest) && Marked(req, at, s);
    assert !s.added ==> Old(list, req, entry) by {
      if !s.added {
        EntryOK(list, req, s.cs, s.ce, s.free[0]);
      }
    }
    assert s.left == |s.done| ==> Old(list, req, copy.(end := s.cs - 1)) by {
      if s.left == |s.done| {
        HeadLoose(list, free, req, at, s);
        SlotOld(list, req, s.rest[0], copy.slot);
        ShrunkOld(list, req, copy, copy.(end := s.cs - 1));
      }
    }
    WithinAhead(list, free, req, at, s);
    hide Loosely, Request, Within, Old, Taken, Marked;
    WithinFresh(list, req, s, entry, copy);
    WithinKept(list, req, at, s, Fresh(s, entry, copy) + Ahead(s));
    Regroup3(Kept(s), Fresh(s, entry, copy), Ahead(s));
  }

  lemma Regroup3(a: seq<FileLock>, b: seq<FileLock>, c: seq<FileLock>)
    ensures a + (b + c) == a + b + c
  {
  }

  lemma WithinFresh(list: seq<FileLock>, req: FileLock, s: State, entry: FileLock, copy: FileLock)
    requires s.right ==> s.rest != []
    requires Within(list, req, s.done + Ahead(s))
    requires !s.added ==> Old(list, req, entry)
    requires s.left == |s.done| ==> Old(list, req, copy.(end := s.cs - 1))
    ensures Within(list, req, s.done + (Fresh(s, entry, copy) + Ahead(s)))
  {
    hide Within, Old, Ahead;
    var B := Own(s, entry) + Ahead(s);
    if s.added {
      assert B == Ahead(s);
    } else {
      WithinPut(list, req, s.done, Ahead(s), entry);
    }
    if s.left == |s.done| {
      WithinPut(list, req, s.done, B, copy.(end := s.cs - 1));
    } else {
      assert LeftPart(s, copy) + B == B;
    }
    Regroup3(LeftPart(s, copy), Own(s, entry), Ahead(s));
  }

  lemma WithinAhead(list: seq<FileLock>, free: seq<nat>, req: FileLock, at: nat, s: State)
    requires Request(list, req, at) && Loosely(list, free, req, at, s)
    ensures Within(list, req, s.done + Ahead(s))
  {
    hide Grown, Counted, Request, Within, Old;
    var d, L := |s.done|, s.done + s.rest;
    if s.right {
      var l := s.rest[0].(start := s.ce + 1);
      HeadLoose(list, free, req, at, s);
      ShrunkOld(list, req, s.rest[0], l);
      WithinReplace(list, req, L, d, l);
      assert L[d := l] == s.done + Ahead(s);
    }
  }

  lemma WithinPut(list: seq<FileLock>, req: FileLock, A: seq<FileLock>, B: seq<FileLock>, l: FileLock)
    requires Within(list, req, A + B) && Old(list, req, l)
    ensures Within(list, req, A + ([l] + B))
  {
    hide Within, Old;
    WithinInsert(list, req, A + B, |A|, l);
    assert Insert(A + B, |A|, l) == A + ([l] + B);
  }

  lemma WithinKept(list: seq<FileLock>, req: FileLock, at: nat, s: State, B: seq<FileLock>)
    requires Within(list, req, s.done + B) && Marked(req, at, s)
    requires forall i :: at <= i < |s.done| ==> s.done[i].owner == req.owner
    ensures Within(list, req, Kept(s) + B)
  {
    hide Within, Old;
    if 0 <= s.left < |s.done| {
      var L, l := s.done + B, s.done[s.left].(end := s.cs - 1);
      MemberOld(list, req, L, s.left);
      ShrunkOld(list, req, L[s.left], l);
      WithinReplace(list, req, L, s.left, l);
      assert L[s.left := l] == Kept(s) + B;
    }
  }

  lemma SlotOld(list: seq<FileLock>, req: FileLock, l: FileLock, slot: nat)
    requires Old(list, req, l)
    ensures Old(list, req, l.(slot := slot))
  {
    hide Holds;
  }

  lemma FinalLoose(list: seq<FileLock>, free: seq<nat>, req: FileLock, at: nat, s: State, entry: FileLock,
          copy: FileLock)
    requires Request(list, req, at) && Loosely(list, free, req, at, s) && Taken(req, s, entry, copy)
    ensures Loose(Final(s, entry, copy))
  {
    hide Loosely, Request, LooseOK, Marked, Taken, Shape, Spent, Kept, Fresh, Head, Tail, Ahead, Loose, Grouped;
    LooseFacts(list, free, req, at, s);
    SplitAhead(list, req, at, s);
    MiddleOK(req, at, s, entry, copy);
    KeptFront(list, req, at, s);
    Assembled(list, at, |list| - |Tail(s)|, Kept(s)[at..], Fresh(s, entry, copy), Head(s), Tail(s), req.owner);
  }

  lemma LooseFacts(list: seq<FileLock>, free: seq<nat>, req: FileLock, at: nat, s: State)
    requires Request(list, req, at) && Loosely(list, free, req, at, s)
    ensures Shape(list, req, at, s.done, s.rest) && Marked(req, at, s) && 0 <= s.cs <= s.ce <= OFFSET_MAX
    ensures Grouped(list) && at <= |s.done| && (s.right ==> s.rest != [] && s.rest[0].owner == req.owner)
    ensures forall i :: 0 <= i < |list| ==> LooseOK(list[i])
    ensures forall i :: 0 <= i < at ==> list[i].owner != req.owner
    ensures at < |list| ==> list[at].owner == req.owner
    ensures forall i :: at <= i < |s.done| ==> s.done[i].owner == req.owner && LooseOK(s.done[i])
  {
    hide Within, Counted, LooseOK;
  }

  lemma Assembled(list: seq<FileLock>, at: nat, p: nat, kept: seq<FileLock>, fresh_: seq<FileLock>, head: seq<FileLock>,
                  tail: seq<FileLock>, o: nat)
    requires Grouped(list) && at <= p <= |list| && tail == list[p..]
    requires forall i :: 0 <= i < |list| ==> LooseOK(list[i])
    requires forall i :: 0 <= i < at ==> list[i].owner != o
    requires forall i :: at <= i < p ==> list[i].owner == o
    requires at < |list| ==> list[at].owner == o
    requires var mid := kept + fresh_ + head; forall i :: 0 <= i < |mid| ==> mid[i].owner == o && LooseOK(mid[i])
    ensures Loose((list[..at] + kept) + fresh_ + (head + tail))
  {
    var mid := kept + fresh_ + head;
    Joined(list[..at], kept, fresh_, head, tail);
    hide LooseOK, Grouped;
    Regrouped(list, at, p, mid, o);
    LooseParts(list, at, p, mid);
  }

  function Head(s: State): seq<FileLock>
    requires s.right ==> s.rest != []
  {
    if s.right then [s.rest[0].(start := s.ce + 1)] else []
  }

  function Tail(s: State): seq<FileLock>
    requires s.right ==> s.rest != []
  {
    if s.right then s.rest[1..] else s.rest
  }

  lemma SplitAhead(list: seq<FileLock>, req: FileLock, at: nat, s: State)
    requires Shape(list, req, at, s.done, s.rest) && (s.right ==> s.rest != [] && s.rest[0].owner == req.owner)
    requires forall i :: 0 <= i < |list| ==> LooseOK(list[i])
    ensures Ahead(s) == Head(s) + Tail(s)
    ensures |Tail(s)| <= |list| && at <= |list| - |Tail(s)| && Tail(s) == list[|list| - |Tail(s)|..]
    ensures forall i :: at <= i < |list| - |Tail(s)| ==> list[i].owner == req.owner
    ensures s.right ==> LooseOK(s.rest[0])
  {
    hide LooseOK;
    var p := |list| - |s.rest|;
    assert s.rest == list[p..];
    if s.right {
      assert s.rest[0] == list[p] && s.rest[1..] == list[p + 1..];
    }
  }

  lemma KeptFront(list: seq<FileLock>, req: FileLock, at: nat, s: State)
    requires Shape(list, req, at, s.done, s.rest) && Marked(req, at, s)
    ensures at <= |Kept(s)| && Kept(s) == list[..at] + Kept(s)[at..]
  {
    assert Kept(s)[..at] == list[..at];
  }

  lemma Joined(a: seq<FileLock>, b: seq<FileLock>, c: seq<FileLock>, d: seq<FileLock>, e: seq<FileLock>)
    ensures (a + b) + c + (d + e) == a + (b + c + d) + e
  {
  }

  lemma LooseParts(list: seq<FileLock>, at: nat, p: nat, mid: seq<FileLock>)
    requires at <= p <= |list| && (forall i :: 0 <= i < |list| ==> LooseOK(list[i]))
    requires forall i :: 0 <= i < |mid| ==> LooseOK(mid[i])
    ensures var F := list[..at] + mid + list[p..]; forall i :: 0 <= i < |F| ==> LooseOK(F[i])
  {
  }

  lemma MiddleOK(req: FileLock, at: nat, s: State, entry: FileLock, copy: FileLock)
    requires at <= |s.done| && Marked(req, at, s) && Taken(req, s, entry, copy)
    requires 0 <= s.cs <= s.ce <= OFFSET_MAX
    requires forall i :: at <= i < |s.done| ==> s.done[i].owner == req.owner && LooseOK(s.done[i])
    requires s.right ==> LooseOK(s.rest[0])
    ensures var mid := Kept(s)[at..] + Fresh(s, entry, copy) + Head(s);
            forall i :: 0 <= i < |mid| ==> mid[i].owner == req.owner && LooseOK(mid[i])
  {
  }

  lemma FinalCounted(list: seq<FileLock>, free: seq<nat>, req: FileLock, at: nat, s: State, entry: FileLock,
          copy: FileLock)
    requires Loosely(list, free, req, at, s) && Taken(req, s, entry, copy)
    ensures Counted(list, free, Final(s, entry, copy), [], s.free[Spent(s)..])
  {
    hide Within, Grown, Shape, Bag, Taken, Fresh, Kept, Spent;
    FreshSlots(req, s, entry, copy);
    SameSlots(s);
    BagAppend(Kept(s), Fresh(s, entry, copy));
    BagAppend(Kept(s) + Fresh(s, entry, copy), Ahead(s));
    BagEmpty();
  }

  lemma BagEmpty()
    ensures Bag([]) == multiset{}
  {
    assert Slots([]) == [];
  }

  lemma SameSlots(s: State)
    requires s.right ==> s.rest != []
    ensures Bag(Kept(s)) == Bag(s.done) && Bag(Ahead(s)) == Bag(s.rest)
  {
    assert Slots(Kept(s)) == Slots(s.done) && Slots(Ahead(s)) == Slots(s.rest);
  }

  lemma FreshSlots(req: FileLock, s: State, entry: FileLock, copy: FileLock)
    requires Taken(req, s, entry, copy)
    ensures Spent(s) <= |s.free| && Bag(Fresh(s, entry, copy)) + multiset(s.free[Spent(s)..]) == multiset(s.free)
  {
    assert s.free == s.free[..Spent(s)] + s.free[Spent(s)..];
    var f := Slots(Fresh(s, entry, copy));
    if s.left == |s.done| && !s.added {
      assert f == [s.free[1], s.free[0]] && s.free[..2] == [s.free[0], s.free[1]];
    } else if s.left == |s.done| {
      assert f == [s.free[0]] && s.free[..1] == [s.free[0]];
    } else if !s.added {
      assert f == [s.free[0]] && s.free[..1] == [s.free[0]];
    } else {
      assert f == [] && s.free[..0] == [];
    }
  }
}
