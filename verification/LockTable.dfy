/** The system's lock table (fs/locks.c): every entry is either free or in the list of one inode,
    and no two owners hold conflicting locks. */
module LockTable {
  import opened FileLocks
  import opened LockScan
  import opened LockFinish
  import opened LockClash
  import opened LockLoose
  import opened LockSteps
  import opened LockTrace
  import opened LockFail
  import opened LockIt

  const NR_FILE_LOCKS := 64

  datatype LockType = FRdLck | FWrLck | FUnLck | FShLck | FExLck | FOther

  /** The user's struct flock. */
  datatype Flock = Flock(kind: LockType, whence: int, start: int, len: int)

  /** What setlk needs to know about the open file. */
  datatype OpenFile = OpenFile(regular: bool, readable: bool, writable: bool, pos: int, size: int)

  datatype Outcome = Done(status: Status) | MustWait

  datatype Request = Bad | Range(kind: LockType, start: int, end: int)

  /** copy_flock (fs/locks.c:193-220): a user request as an absolute byte range.  The range is never
      empty, and one that would run past the largest offset ends there. */
  function CopyFlock(f: OpenFile, l: Flock): (r: Request)
    requires Int32(l.start) && Int32(l.len) && 0 <= f.pos <= OFFSET_MAX && 0 <= f.size <= OFFSET_MAX
    ensures r.Range? ==> 0 <= r.start <= r.end <= OFFSET_MAX && r.kind == l.kind && r.kind != FOther
    ensures r.Range? && l.len > 0 && r.start + l.len - 1 <= OFFSET_MAX ==> r.end == r.start + l.len - 1
    ensures r.Range? && (l.len == 0 || r.start + l.len - 1 > OFFSET_MAX) ==> r.end == OFFSET_MAX
    ensures var at := l.start + (if l.whence == 0 then 0 else if l.whence == 1 then f.pos else f.size);
      && (r.Range? ==> r.start == at)
      && (r.Bad? <==>
            !f.regular || l.kind == FOther || !(0 <= l.whence <= 2) || l.len < 0 || !(0 <= at <= OFFSET_MAX))
  {
    if !f.regular || l.kind == FOther || l.whence < 0 || l.whence > 2 then Bad
    else
      var base := if l.whence == 0 then 0 else if l.whence == 1 then f.pos else f.size;
      var start := Wrap32(base + l.start);
      if start < 0 || l.len < 0 then Bad
      else
        var end := Wrap32(start + l.len - 1);
        Range(l.kind, start, if l.len == 0 || end < 0 then OFFSET_MAX else end)
  }

  predicate Overlap(a: FileLock, b: FileLock) {
    a.end >= b.start && b.end >= a.start
  }

  /** conflict (fs/locks.c:226-239). */
  predicate Conflict(caller: FileLock, sys: FileLock) {
    && caller.owner != sys.owner
    && Overlap(caller, sys)
    && (match caller.kind case RdLck => sys.kind != RdLck case WrLck => true case UnLck => false)
  }

  /** Another owner's entry touches the range, and one of the two is for writing. */
  predicate Blocks(l: FileLock, task: nat, write: bool, start: int, end: int) {
    l.owner != task && l.start <= end && start <= l.end && (write || l.kind != RdLck)
  }

  /** Another owner holds a byte of the range, and one of the two is for writing. */
  ghost predicate Contended(L: seq<FileLock>, task: nat, write: bool, start: int, end: int) {
    exists o, k, x :: o != task && start <= x <= end && Holds(L, o, k, x) && (write || k == WrLck)
  }

  predicate Writes(kind: LockType) {
    kind == FWrLck || kind == FExLck
  }

  /** The file is not open in a mode that the kind needs. */
  predicate NotOpenFor(f: OpenFile, kind: LockType) {
    || (kind == FRdLck && !f.readable)
    || (kind == FWrLck && !f.writable)
    || ((kind == FShLck || kind == FExLck) && !f.readable && !f.writable)
  }

  /** Every byte of the range is held as the request says, or not at all after an unlock. */
  ghost predicate HoldsAsAsked(L: seq<FileLock>, task: nat, kind: LockType, start: int, end: int) {
    forall x :: start <= x <= end ==>
      && (Holds(L, task, RdLck, x) <==> kind == FRdLck || kind == FShLck)
      && (Holds(L, task, WrLck, x) <==> Writes(kind))
  }

  lemma PaintedAsAsked(list: seq<FileLock>, task: nat, q: Request, L: seq<FileLock>)
    requires q.Range? && q.kind != FOther && SameList(list, Asked(task, q), L)
    ensures HoldsAsAsked(L, task, q.kind, q.start, q.end)
  {
    forall x | q.start <= x <= q.end
      ensures Holds(L, task, RdLck, x) <==> q.kind == FRdLck || q.kind == FShLck
      ensures Holds(L, task, WrLck, x) <==> Writes(q.kind)
    {
      hide Holds;
      assert Painted(list, Asked(task, q), task, RdLck, x) <==> q.kind == FRdLck || q.kind == FShLck;
      assert Painted(list, Asked(task, q), task, WrLck, x) <==> Writes(q.kind);
    }
  }

  lemma ConflictBlocks(task: nat, q: Request, l: FileLock)
    requires q.Range? && q.kind != FUnLck && q.kind != FOther
    ensures Conflict(Asked(task, q), l) <==> Blocks(l, task, Writes(q.kind), q.start, q.end)
  {
  }

  /** In a well-formed list entries block a request exactly if they hold one of its bytes. */
  lemma BlockedIsContended(L: seq<FileLock>, task: nat, write: bool, start: int, end: int)
    requires ListOK(L) && start <= end
    ensures (exists i :: 0 <= i < |L| && Blocks(L[i], task, write, start, end))
      <==> Contended(L, task, write, start, end)
  {
    if i :| 0 <= i < |L| && Blocks(L[i], task, write, start, end) {
      assert LockOK(L[i]);
      var x := if L[i].start < start then start else L[i].start;
      assert Covers(L[i], x) && Holds(L, L[i].owner, L[i].kind, x);
    }
  }

  /** No byte is held by two owners unless both hold it for reading. */
  ghost predicate Safe(L: seq<FileLock>) {
    forall o, o', k, k', x {:trigger Holds(L, o, k, x), Holds(L, o', k', x)} ::
      o != o' && Holds(L, o, k, x) && Holds(L, o', k', x) ==> k == RdLck && k' == RdLck
  }

  /** Granting a request that conflicts with no lock keeps the file safe, whatever becomes of the list. */
  lemma GrantSafe(L: seq<FileLock>, req: FileLock, L': seq<FileLock>)
    requires Safe(L) && Within(L, req, L')
    requires forall i :: 0 <= i < |L| ==> !Conflict(req, L[i])
    ensures Safe(L')
  {
    forall o, o', k, k', x | o != o' && Holds(L', o, k, x) && Holds(L', o', k', x)
      ensures k == RdLck && k' == RdLck
    {
      if Holds(L, o, k, x) && !Holds(L, o', k', x) {
        NoClash(L, req, o, k, x);
      } else if !Holds(L, o, k, x) {
        NoClash(L, req, o', k', x);
      }
    }
  }

  lemma UnlockNeverConflicts(req: FileLock, L: seq<FileLock>)
    requires req.kind == UnLck
    ensures forall i :: 0 <= i < |L| ==> !Conflict(req, L[i])
  {
  }

  lemma NoClash(L: seq<FileLock>, req: FileLock, o: nat, k: Kind, x: int)
    requires forall i :: 0 <= i < |L| ==> !Conflict(req, L[i])
    ensures Holds(L, o, k, x) && o != req.owner && Covers(req, x) && req.kind != UnLck ==>
      req.kind == RdLck && k == RdLck
  {
    if Holds(L, o, k, x) && o != req.owner && Covers(req, x) && req.kind != UnLck {
      var i :| 0 <= i < |L| && L[i].owner == o && L[i].kind == k && Covers(L[i], x);
      assert !Conflict(req, L[i]);
    }
  }

  // ---- entries in all lists ----

  ghost function Total(lists: seq<seq<FileLock>>): multiset<nat> {
    if lists == [] then multiset{} else Bag(lists[0]) + Total(lists[1..])
  }

  lemma Balance(a: multiset<nat>, b: multiset<nat>, c: multiset<nat>, d: multiset<nat>, e: multiset<nat>)
    requires a + b == c + d
    ensures (e + a) + b == (e + c) + d
  {
    assert (e + a) + b == e + (a + b);
  }

  lemma Transfer(t': multiset<nat>, b: multiset<nat>, t: multiset<nat>, b': multiset<nat>, f': multiset<nat>,
          f: multiset<nat>)
    requires t' + b == t + b' && b' + f' == b + f
    ensures t' + f' == t + f
  {
    forall x: nat
      ensures (t' + f')[x] == (t + f)[x]
    {
      assert (t' + b)[x] == (t + b')[x];
      assert (b' + f')[x] == (b + f)[x];
    }
  }

  lemma {:induction false} TotalUpdate(lists: seq<seq<FileLock>>, i: nat, L: seq<FileLock>)
    requires i < |lists|
    ensures Total(lists[i := L]) + Bag(lists[i]) == Total(lists) + Bag(L)
  {
    hide Bag;
    if i == 0 {
      assert lists[i := L][1..] == lists[1..];
    } else {
      TotalUpdate(lists[1..], i - 1, L);
      assert lists[i := L][1..] == lists[1..][i - 1 := L];
      Balance(Total(lists[1..][i - 1 := L]), Bag(lists[i]), Total(lists[1..]), Bag(L), Bag(lists[0]));
    }
  }

  lemma {:induction false} TotalEmpty(lists: seq<seq<FileLock>>)
    requires forall i :: 0 <= i < |lists| ==> lists[i] == []
    ensures Total(lists) == multiset{}
  {
    if lists != [] {
      assert Slots([]) == [];
      TotalEmpty(lists[1..]);
    }
  }

  lemma TotalKept(lists: seq<seq<FileLock>>, free: seq<nat>, i: nat, L: seq<FileLock>, free': seq<nat>,
          all: multiset<nat>)
    requires i < |lists| && Total(lists) + multiset(free) == all
    requires Bag(L) + multiset(free') == Bag(lists[i]) + multiset(free)
    ensures Total(lists[i := L]) + multiset(free') == all
  {
    hide Bag, Total;
    TotalUpdate(lists, i, L);
    Transfer(Total(lists[i := L]), Bag(lists[i]), Total(lists), Bag(L), multiset(free'), multiset(free));
  }

  class Table {
    /** i_flock of each inode, and file_lock_free_list. */
    var lists: seq<seq<FileLock>>
    var free: seq<nat>

    /** Every table entry is in exactly one place, and every file is safe; lists are grouped by owner, but need not
        be sorted and coalesced. */
    ghost predicate Valid()
      reads this
    {
      && Total(lists) + multiset(free) == multiset(seq(NR_FILE_LOCKS, i => i))
      && (forall ino :: 0 <= ino < |lists| ==> Loose(lists[ino]) && Safe(lists[ino]))
    }

    /** fcntl_init_locks (fs/locks.c:39-50), with nothing locked. */
    constructor (inodes: nat)
      ensures Valid() && |lists| == inodes && forall ino :: 0 <= ino < inodes ==> lists[ino] == []
    {
      lists := seq(inodes, _ => []);
      free := seq(NR_FILE_LOCKS, i => i);
      new;
      TotalEmpty(lists);
    }

    /** fcntl_setlk (fs/locks.c:92-165) by `task`.  A conflicting request waits or is refused and changes nothing.
        One that lacks entries changes at most one lock, and `Alters` says when.  In a well-formed list a granted one
        paints its bytes, but for a clash, and the list stays well formed exactly if there is none.  Entries and
        safety are kept in any case. */
    method SetLk(ino: nat, task: nat, wait: bool, f: OpenFile, l: Flock) returns (r: Outcome)
      requires Valid() && ino < |lists|
      requires Int32(l.start) && Int32(l.len) && 0 <= f.pos <= OFFSET_MAX && 0 <= f.size <= OFFSET_MAX
      modifies this
      ensures Valid() && |lists| == |old(lists)|
      ensures forall i :: 0 <= i < |lists| && i != ino ==> lists[i] == old(lists[i])
      ensures r == MustWait || r.status == Ok || r.status == EInval || r.status == ENoLck || r.status == EAgain
        || r.status == EBadF
      ensures r != Done(Ok) && (r != Done(ENoLck) || ListOK(old(lists[ino]))) ==>
        lists == old(lists) && free == old(free)
      ensures r == Done(Ok) || r == Done(ENoLck) ==>
        && CopyFlock(f, l).Range?
        && Within(old(lists[ino]), Asked(task, CopyFlock(f, l)), lists[ino])
        && (r.status, lists[ino], free) == Applied(old(lists[ino]), old(free), Asked(task, CopyFlock(f, l)))
      ensures r == Done(ENoLck) ==>
        var was, ask := old(lists[ino]), Asked(task, CopyFlock(f, l));
        && Fails(was, old(free), ask) && free == old(free) && lists[ino] == Retyped(was, ask)
        && (lists[ino] != was <==> Alters(was, ask))
      ensures r == Done(Ok) && ListOK(old(lists[ino])) ==>
        && Repainted(old(lists[ino]), Asked(task, CopyFlock(f, l)), lists[ino])
        && (ListOK(lists[ino]) <==> !Clashes(old(lists[ino]), Asked(task, CopyFlock(f, l))))
      ensures r == Done(ENoLck) && ListOK(old(lists[ino])) ==>
        CopyFlock(f, l).Range? && |free| < Need(lists[ino], Asked(task, CopyFlock(f, l)))
      ensures r == Done(EBadF) <==> CopyFlock(f, l).Range? && NotOpenFor(f, l.kind)
      ensures r == MustWait || r == Done(EAgain) ==> (r == MustWait <==> wait)
      ensures r == MustWait || r == Done(EAgain) <==>
        && CopyFlock(f, l).Range? && !NotOpenFor(f, l.kind) && l.kind != FUnLck
        && var q := CopyFlock(f, l);
           exists i :: 0 <= i < |old(lists[ino])| && Blocks(old(lists[ino])[i], task, Writes(l.kind), q.start, q.end)
      ensures ListOK(old(lists[ino])) ==>
        (r == MustWait || r == Done(EAgain) <==>
           && CopyFlock(f, l).Range? && !NotOpenFor(f, l.kind) && l.kind != FUnLck
           && var q := CopyFlock(f, l); Contended(old(lists[ino]), task, Writes(l.kind), q.start, q.end))
      ensures r == Done(EInval) && CopyFlock(f, l).Range? ==>
        Applied(old(lists[ino]), old(free), Asked(task, CopyFlock(f, l))).0 == EInval
      ensures r == Done(Ok) && ListOK(lists[ino]) && ListOK(old(lists[ino])) ==>
        HoldsAsAsked(lists[ino], task, l.kind, CopyFlock(f, l).start, CopyFlock(f, l).end)
      ensures ListOK(old(lists[ino])) ==>
        (r == Done(EInval) <==>
           CopyFlock(f, l).Bad?
           || (l.kind == FUnLck && !Touches(old(lists[ino]), Asked(task, CopyFlock(f, l)))))
    {
      hide Total, Bag, ListOK, Loose, Safe, Within, Repainted, Clashes, Need, Conflict, CopyFlock, Touches;
      hide Applied, Fails, Retyped, Alters, Blocks, Contended, HoldsAsAsked, SameList;
      var req := CopyFlock(f, l);
      if req.Bad? {
        return Done(EInval);
      }
      if !Allowed(f, req.kind) {
        return Done(EBadF);
      }
      var ask := Asked(task, req);
      var list := lists[ino];
      if ListOK(list) { BlockedIsContended(list, task, Writes(l.kind), req.start, req.end); }
      var blocked := Scan(list, task, req);
      if blocked {
        return if wait then MustWait else Done(EAgain);
      }
      var status, L, free' := Apply(list, free, ask);
      GrantSafe(list, ask, L);
      if ListOK(list) && ListOK(L) && status == Ok {
        NoClashPaints(list, ask, L);
        PaintedAsAsked(list, task, req, L);
      }
      TotalKept(lists, free, ino, L, free', multiset(seq(NR_FILE_LOCKS, i => i)));
      assert lists[ino := lists[ino]] == lists;
      lists, free := lists[ino := L], free';
      return Done(status);
    }

    /** The scan for a conflicting lock (fs/locks.c:138-158). */
    method Scan(list: seq<FileLock>, task: nat, q: Request) returns (blocked: bool)
      requires q.Range? && q.kind != FOther
      ensures blocked <==>
        q.kind != FUnLck && exists i :: 0 <= i < |list| && Blocks(list[i], task, Writes(q.kind), q.start, q.end)
      ensures !blocked ==> forall i :: 0 <= i < |list| ==> !Conflict(Asked(task, q), list[i])
    {
      hide Conflict, Blocks;
      if q.kind == FUnLck {
        UnlockNeverConflicts(Asked(task, q), list);
        return false;
      }
      var i := 0;
      while i < |list|
        invariant i <= |list|
        invariant forall j :: 0 <= j < i ==> !Conflict(Asked(task, q), list[j])
        invariant forall j :: 0 <= j < i ==> !Blocks(list[j], task, Writes(q.kind), q.start, q.end)
      {
        ConflictBlocks(task, q, list[i]);
        if Conflict(Asked(task, q), list[i]) {
          return true;
        }
        i := i + 1;
      }
      return false;
    }

    /** fcntl_remove_locks (fs/locks.c:171-186): closing gives up all of the task's locks on the file. */
    method RemoveLocks(ino: nat, task: nat)
      requires Valid() && ino < |lists|
      modifies this
      ensures Valid() && |lists| == |old(lists)|
      ensures forall i :: 0 <= i < |lists| && i != ino ==> lists[i] == old(lists[i])
      ensures forall o, k, x :: Holds(lists[ino], o, k, x) <==> o != task && Holds(old(lists[ino]), o, k, x)
      ensures ListOK(old(lists[ino])) ==> ListOK(lists[ino])
    {
      hide Total, Bag, ListOK, Loose, Safe, Holds;
      var L, free' := DropOwner(lists[ino], free, task);
      TotalKept(lists, free, ino, L, free', multiset(seq(NR_FILE_LOCKS, i => i)));
      lists, free := lists[ino := L], free';
    }
  }

  /** Opening modes needed for each kind (fs/locks.c:111-132). */
  predicate Allowed(f: OpenFile, k: LockType) {
    match k
    case FRdLck => f.readable
    case FWrLck => f.writable
    case FShLck => f.readable || f.writable
    case FExLck => f.readable || f.writable
    case FUnLck => true
    case FOther => true
  }

  function Asked(task: nat, r: Request): FileLock
    requires r.Range?
  {
    FileLock(0, task, (match r.kind case FRdLck =>
      RdLck case FShLck => RdLck case FWrLck => WrLck case FExLck => WrLck case _ => UnLck),
             r.start, r.end)
  }

  method DropOwner(list: seq<FileLock>, free: seq<nat>, task: nat) returns (L: seq<FileLock>, free': seq<nat>)
    requires Loose(list)
    ensures Loose(L) && Bag(L) + multiset(free') == Bag(list) + multiset(free)
    ensures forall o, k, x {:trigger Holds(L, o, k, x)} {:trigger Holds(list, o, k, x)} ::
      Holds(L, o, k, x) <==> o != task && Holds(list, o, k, x)
    ensures Safe(list) ==> Safe(L)
    ensures ListOK(list) ==> ListOK(L)
  {
    hide Bag, ListOK, Loose;
    L, free' := list, free;
    var at := 0;
    while at < |L| && L[at].owner != task
      invariant at <= |L| && forall i :: 0 <= i < at ==> L[i].owner != task
    {
      at := at + 1;
    }
    ghost var e := OwnersGroup(list, task, at);
    while at < |L| && L[at].owner == task
      invariant Loose(L) && Group(L, task, at, e) && (ListOK(list) ==> ListOK(L))
      invariant Bag(L) + multiset(free') == Bag(list) + multiset(free)
      invariant SameOthers(list, L, task)
      decreases |L|
    {
      BagDelete(L, at, free');
      DeleteLoose(L, task, at, e);
      if ListOK(L) {
        DeleteOK(L, at);
      }
      DeleteGroup(L, task, at, e, at);
      DropOne(list, L, task, at);
      free' := [L[at].slot] + free';
      L := Delete(L, at);
      e := e - 1;
    }
    forall o, k, x
      ensures Holds(L, o, k, x) <==> o != task && Holds(list, o, k, x)
    {
      assert forall i :: 0 <= i < |L| ==> L[i].owner != task;
    }
  }

  lemma OwnersGroup(list: seq<FileLock>, task: nat, at: nat) returns (e: nat)
    requires Loose(list) && at <= |list| && (forall i :: 0 <= i < at ==> list[i].owner != task)
    requires at < |list| ==> list[at].owner == task
    ensures Group(list, task, at, e)
  {
    e := FindGroup(list, task, at);
  }

  lemma DeleteLoose(L: seq<FileLock>, task: nat, at: nat, e: nat)
    requires Loose(L) && Group(L, task, at, e) && at < |L| && L[at].owner == task
    ensures Loose(Delete(L, at))
  {
    var mid := L[at + 1..e];
    Regrouped(L, at, e, mid, task);
    assert L[..at] + mid + L[e..] == Delete(L, at);
  }

  ghost predicate SameOthers(list: seq<FileLock>, L: seq<FileLock>, task: nat) {
    forall o, k, x {:trigger Holds(L, o, k, x)} :: o != task ==> (Holds(L, o, k, x) <==> Holds(list, o, k, x))
  }

  lemma DropOne(list: seq<FileLock>, L: seq<FileLock>, task: nat, at: nat)
    requires SameOthers(list, L, task) && at < |L| && L[at].owner == task
    ensures SameOthers(list, Delete(L, at), task)
  {
    forall o, k, x | o != task
      ensures Holds(Delete(L, at), o, k, x) <==> Holds(list, o, k, x)
    {
      assert L == L[..at] + [L[at]] + L[at + 1..];
      HoldsMiddle(L[..at], L[at], L[at + 1..], o, k, x);
      HoldsConcat(L[..at], L[at + 1..], o, k, x);
    }
  }

  lemma BagDelete(L: seq<FileLock>, i: nat, fr: seq<nat>)
    requires i < |L|
    ensures Bag(Delete(L, i)) + multiset([L[i].slot] + fr) == Bag(L) + multiset(fr)
  {
    assert L == L[..i] + ([L[i]] + L[i + 1..]);
    BagAppend(L[..i], [L[i]] + L[i + 1..]);
    BagAppend([L[i]], L[i + 1..]);
    BagOne(L[i]);
    BagAppend(L[..i], L[i + 1..]);
  }

  // ---- a clash ----

  /** The comparison at fs/locks.c:297 adds one to the request's end.  In 32 bits that differs from
      the mathematical comparison exactly when the request reaches the largest offset and the lock
      does not start at the smallest. */
  lemma EndPlusOne(start: int, end: int)
    requires Int32(start) && 0 <= end <= OFFSET_MAX
    ensures (start > Wrap32(end + 1)) != (start > end + 1) <==> end == OFFSET_MAX && start > -0x8000_0000
  {
  }

  /** A read lock from 100 to the end of the file, and a request of its owner to read-lock the whole file. */
  function ClashList(slot: nat, task: nat): seq<FileLock> {
    [FileLock(slot, task, RdLck, 100, OFFSET_MAX)]
  }

  /** The request reaches the largest offset, and the list it is put to is well formed. */
  lemma ClashInput(f: OpenFile, slot: nat, task: nat)
    requires f.regular && 0 <= f.pos <= OFFSET_MAX && 0 <= f.size <= OFFSET_MAX
    ensures CopyFlock(f, Flock(FRdLck, 0, 0, 0)) == Range(FRdLck, 0, OFFSET_MAX)
    ensures ListOK(ClashList(slot, task)) && 100 > Wrap32(OFFSET_MAX + 1)
    ensures Clashes(ClashList(slot, task), Asked(task, CopyFlock(f, Flock(FRdLck, 0, 0, 0))))
  {
    assert ClashAt(ClashList(slot, task), Asked(task, CopyFlock(f, Flock(FRdLck, 0, 0, 0))), 0);
  }

  /** lock_it grants it and leaves a list that is not well formed; it takes another table entry to hold what one
      could hold. */
  method ClashRun(f: OpenFile, slot: nat, free: seq<nat>, task: nat) returns (list': seq<FileLock>, free': seq<nat>)
    requires f.regular && 0 <= f.pos <= OFFSET_MAX && 0 <= f.size <= OFFSET_MAX && free != []
    ensures Loose(list') && !ListOK(list') && |list'| >= 2 && |free'| < |free|
    ensures forall x :: 0 <= x <= OFFSET_MAX ==> Holds(list', task, RdLck, x)
  {
    ClashInput(f, slot, task);
    var req := Asked(task, CopyFlock(f, Flock(FRdLck, 0, 0, 0)));
    var list := ClashList(slot, task);
    assert !Over(list, req);
    var status;
    status, list', free' := Apply(list, free, req);
    assert status == Ok;
    BagSize(list');
    BagSize(list);
    assert |multiset(free')| == |free'| && |multiset(free)| == |free|;
    assert |Bag(list') + multiset(free')| == |Bag(list) + multiset(free)|;
    forall x | 0 <= x <= OFFSET_MAX
      ensures Holds(list', task, RdLck, x)
    {
      assert Painted(list, req, task, RdLck, x);
    }
    assert Holds(list', task, RdLck, 0);
    if |list'| == 1 {
      OneIsOK(list', task, RdLck, 0);
    }
  }

  lemma OneIsOK(L: seq<FileLock>, o: nat, k: Kind, x: int)
    requires Loose(L) && |L| == 1 && Holds(L, o, k, x)
    ensures ListOK(L)
  {
  }

  lemma BagSize(L: seq<FileLock>)
    ensures |Bag(L)| == |L|
  {
    assert |Slots(L)| == |L|;
  }
}
