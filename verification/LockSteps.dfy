/** The steps of lock_it (fs/locks.c:266-394) on the lock list of an inode.  The list is split at the pointer `before`:
    the entries in front of it are `done`, the rest follow. */
module LockSteps {
  import opened FileLocks
  import opened LockScan
  import opened LockClash
  import opened LockLoose

  datatype Status = Ok | EInval | ENoLck | EAgain | EBadF

  /** The variables of lock_it.  The range of the caller is cs..ce, and once it has an entry that is done[mine];
      `left` is an index of done, or |done| for the lock at `before`; `right` is the lock at `before`. */
  datatype State = State(done: seq<FileLock>, rest: seq<FileLock>, free: seq<nat>, left: int, cs: int, ce: int,
                         added: bool, mine: nat, stop: bool, right: bool)

  /** The caller has an entry in the list. */
  predicate Entered(req: FileLock, s: State) {
    s.added && req.kind != UnLck
  }

  // ---- table entries ----

  /** The table slots in a list. */
  ghost function Bag(L: seq<FileLock>): multiset<nat> {
    multiset(Slots(L))
  }

  lemma BagAppend(A: seq<FileLock>, B: seq<FileLock>)
    ensures Bag(A + B) == Bag(A) + Bag(B)
  {
    assert Slots(A + B) == Slots(A) + Slots(B);
  }

  lemma BagOne(l: FileLock)
    ensures Bag([l]) == multiset{l.slot}
  {
    assert Slots([l]) == [l.slot];
  }

  lemma BagHead(L: seq<FileLock>)
    requires L != []
    ensures Bag(L) == multiset{L[0].slot} + Bag(L[1..])
  {
    assert L == [L[0]] + L[1..];
    BagAppend([L[0]], L[1..]);
    BagOne(L[0]);
  }

  lemma BagUpdate(L: seq<FileLock>, i: nat, l: FileLock)
    requires i < |L| && l.slot == L[i].slot
    ensures Bag(L[i := l]) == Bag(L)
  {
    assert Slots(L[i := l]) == Slots(L);
  }

  lemma BagInsert(L: seq<FileLock>, i: nat, l: FileLock, fr: seq<nat>)
    requires i <= |L| && fr != [] && l.slot == fr[0]
    ensures Bag(Insert(L, i, l)) + multiset(fr[1..]) == Bag(L) + multiset(fr)
  {
    assert L == L[..i] + L[i..] && fr == [fr[0]] + fr[1..];
    BagAppend(L[..i], L[i..]);
    BagAppend(L[..i] + [l], L[i..]);
    BagAppend(L[..i], [l]);
    BagOne(l);
  }

  // ---- on any list ----

  /** Loop invariant, whatever the list. */
  ghost predicate Loosely(list: seq<FileLock>, free: seq<nat>, req: FileLock, at: nat, s: State) {
    && Shape(list, req, at, s.done, s.rest)
    && Counted(list, free, s.done, s.rest, s.free)
    && Within(list, req, s.done + s.rest)
    && Grown(list, req, s.cs, s.ce)
    && (!s.added ==> s.done + s.rest == list && s.free == free && s.cs == req.start && s.ce == req.end)
    && (Entered(req, s) ==> HasEntry(req, at, s))
    && Marked(req, at, s)
  }

  /** No table entry is lost. */
  ghost predicate Counted(list: seq<FileLock>, free: seq<nat>, done: seq<FileLock>, rest: seq<FileLock>, fr: seq<nat>) {
    Bag(done) + Bag(rest) + multiset(fr) == Bag(list) + multiset(free)
  }

  lemma CountedNext(list: seq<FileLock>, free: seq<nat>, done: seq<FileLock>, rest: seq<FileLock>, fr: seq<nat>,
          l: FileLock)
    requires Counted(list, free, done, rest, fr) && rest != [] && l.slot == rest[0].slot
    ensures Counted(list, free, done + [l], rest[1..], fr)
  {
    BagHead(rest);
    BagAppend(done, [l]);
    BagOne(l);
    hide Bag;
  }

  lemma CountedSkip(list: seq<FileLock>, free: seq<nat>, done: seq<FileLock>, rest: seq<FileLock>, fr: seq<nat>)
    requires Counted(list, free, done, rest, fr) && rest != []
    ensures Counted(list, free, done, rest[1..], [rest[0].slot] + fr)
  {
    BagHead(rest);
    hide Bag;
  }

  lemma CountedUpdate(list: seq<FileLock>, free: seq<nat>, done: seq<FileLock>, rest: seq<FileLock>, fr: seq<nat>,
          i: nat,
                      l: FileLock)
    requires Counted(list, free, done, rest, fr) && i < |done| && l.slot == done[i].slot
    ensures Counted(list, free, done[i := l], rest, fr)
  {
    BagUpdate(done, i, l);
  }

  /** Only the requester's entries change. */
  ghost predicate Shape(list: seq<FileLock>, req: FileLock, at: nat, done: seq<FileLock>, rest: seq<FileLock>) {
    && at <= |done| && at + |rest| <= |list|
    && rest == list[|list| - |rest|..] && done[..at] == list[..at]
    && (forall i :: at <= i < |list| - |rest| ==> list[i].owner == req.owner)
    && (forall i :: at <= i < |done| ==> done[i].owner == req.owner)
    && (forall i :: 0 <= i < |done| ==> LooseOK(done[i]))
  }

  ghost predicate HasEntry(req: FileLock, at: nat, s: State) {
    && at <= s.mine < |s.done|
    && s.done[s.mine] == FileLock(s.done[s.mine].slot, req.owner, req.kind, s.cs, s.ce)
  }

  /** `left` and `right`. */
  ghost predicate Marked(req: FileLock, at: nat, s: State) {
    && (s.left == -1 || at <= s.left <= |s.done|)
    && (at <= s.left < |s.done| ==> s.done[s.left].kind != req.kind && s.done[s.left].end >= s.cs)
    && (s.left == |s.done| ==> s.right && s.rest != [] && s.rest[0].start < s.cs)
    && (s.right ==> s.stop && s.rest != [] && s.rest[0].owner == req.owner && s.rest[0].kind != req.kind
                    && s.rest[0].start <= s.ce < s.rest[0].end && (req.kind == UnLck ==> s.added))
  }

  /** The list at hand: what the lists of the kernel are from here on. */
  ghost predicate Request(list: seq<FileLock>, req: FileLock, at: nat) {
    && Loose(list) && 0 <= req.start <= req.end <= OFFSET_MAX && at <= |list|
    && (forall i :: 0 <= i < at ==> list[i].owner != req.owner)
    && (at < |list| ==> list[at].owner == req.owner)
    && forall i, j :: at <= i < j < |list| && list[j].owner == req.owner ==> list[i].owner == req.owner
  }

  lemma RequestAt(list: seq<FileLock>, req: FileLock, at: nat)
    requires Loose(list) && 0 <= req.start <= req.end <= OFFSET_MAX && at <= |list|
    requires forall i :: 0 <= i < at ==> list[i].owner != req.owner
    requires at < |list| ==> list[at].owner == req.owner
    ensures Request(list, req, at)
  {
    forall i, j | at <= i < j < |list| && list[j].owner == req.owner
      ensures list[i].owner == req.owner
    {
      assert i == at || list[at].owner == list[j].owner;
    }
  }

  lemma StartLoose(list: seq<FileLock>, free: seq<nat>, req: FileLock, at: nat)
    requires Request(list, req, at)
    ensures Loosely(list, free, req, at,
      State(list[..at], list[at..], free, -1, req.start, req.end, false, 0, false, false))
  {
    assert list[..at] + list[at..] == list;
    BagAppend(list[..at], list[at..]);
    WithinSame(list, req);
    assert Shape(list, req, at, list[..at], list[at..]);
    hide Shape, Within, Loose;
  }

  lemma HeadLoose(list: seq<FileLock>, free: seq<nat>, req: FileLock, at: nat, s: State)
    requires Request(list, req, at) && Loosely(list, free, req, at, s) && s.rest != []
    ensures s.rest[0] == list[|list| - |s.rest|] && LooseOK(s.rest[0]) && at <= |s.done|
    ensures s.rest[0].owner == req.owner ==> Old(list, req, s.rest[0])
  {
    if s.rest[0].owner == req.owner {
      var L := s.done + s.rest;
      assert L[|s.done|] == s.rest[0];
      MemberOld(list, req, L, |s.done|);
    }
  }

  function Passed(s: State): State
    requires s.rest != []
  {
    s.(done := s.done + [s.rest[0]], rest := s.rest[1..])
  }

  /** The lock at `before` stays, and `before` moves past it. */
  lemma PassLoose(list: seq<FileLock>, free: seq<nat>, req: FileLock, at: nat, s: State, left: int, added: bool)
    requires Request(list, req, at) && Loosely(list, free, req, at, s) && s.rest != [] && s.rest[0].owner == req.owner
    requires !s.right && s.left < |s.done| && !s.stop
    requires left == s.left || (left == |s.done| && s.rest[0].kind != req.kind && s.rest[0].end >= s.cs)
    requires added == s.added || (added && req.kind == UnLck)
    ensures Loosely(list, free, req, at, Passed(s).(left := left, added := added))
  {
    hide Within, Grown, Counted, Shape, Marked, HasEntry, Request, LooseOK, Old;
    HeadLoose(list, free, req, at, s);
    ShapeNext(list, req, at, s.done, s.rest, s.rest[0]);
    CountedNext(list, free, s.done, s.rest, s.free, s.rest[0]);
    PassMarked(req, at, s, left, added);
    SameWhole(s.done, s.rest);
  }

  lemma SameWhole(done: seq<FileLock>, rest: seq<FileLock>)
    requires rest != []
    ensures (done + [rest[0]]) + rest[1..] == done + rest
  {
  }

  lemma PassMarked(req: FileLock, at: nat, s: State, left: int, added: bool)
    requires Marked(req, at, s) && s.rest != [] && at <= |s.done|
    requires !s.right && s.left < |s.done| && !s.stop
    requires left == s.left || (left == |s.done| && s.rest[0].kind != req.kind && s.rest[0].end >= s.cs)
    ensures Marked(req, at, Passed(s).(left := left, added := added))
    ensures HasEntry(req, at, s) ==> HasEntry(req, at, Passed(s).(left := left, added := added))
  {
  }

  /** The caller's range becomes cs..ce, in its entry too, and the lock at `before` is freed. */
  function Freed(req: FileLock, s: State, cs: int, ce: int): State
    requires s.rest != [] && (Entered(req, s) ==> s.mine < |s.done|)
  {
    s.(done := if Entered(req, s) then s.done[s.mine := s.done[s.mine].(start := cs, end := ce)] else s.done,
       rest := s.rest[1..], free := [s.rest[0].slot] + s.free, cs := cs, ce := ce)
  }

  lemma FreeLoose(list: seq<FileLock>, free: seq<nat>, req: FileLock, at: nat, s: State, cs: int, ce: int)
    requires Request(list, req, at) && Loosely(list, free, req, at, s) && s.rest != [] && s.rest[0].owner == req.owner
    requires !s.right && s.left < |s.done| && !s.stop && s.added && Grown(list, req, cs, ce) && cs <= s.cs
    requires !Entered(req, s) ==> cs == s.cs && ce == s.ce
    ensures Loosely(list, free, req, at, Freed(req, s, cs, ce))
  {
    hide Grown, Counted, Shape, Marked, Request, LooseOK, Within, Old;
    var s' := Freed(req, s, cs, ce);
    var rest := s.rest[1..];
    HeadLoose(list, free, req, at, s);
    CountedSkip(list, free, s.done, s.rest, s.free);
    ShapeSkip(list, req, at, s.done, s.rest);
    WithinRemove(list, req, s.done + s.rest, |s.done|);
    assert Delete(s.done + s.rest, |s.done|) == s.done + rest;
    FreeMarked(req, at, s, cs, ce);
    if Entered(req, s) {
      var l := s'.done[s.mine];
      EntryOK(list, req, cs, ce, l.slot);
      assert l == FileLock(l.slot, req.owner, req.kind, cs, ce);
      WithinReplace(list, req, s.done + rest, s.mine, l);
      assert (s.done + rest)[s.mine := l] == s'.done + rest;
      ShapeUpdate(list, req, at, s.done, rest, s.mine, l);
      CountedUpdate(list, free, s.done, rest, s'.free, s.mine, l);
    }
  }

  lemma EntryOK(list: seq<FileLock>, req: FileLock, cs: int, ce: int, slot: nat)
    requires Grown(list, req, cs, ce) && req.kind != UnLck
    ensures Old(list, req, FileLock(slot, req.owner, req.kind, cs, ce))
      && LooseOK(FileLock(slot, req.owner, req.kind, cs, ce))
  {
    GrownEntry(list, req, cs, ce, slot);
  }

  lemma FreeMarked(req: FileLock, at: nat, s: State, cs: int, ce: int)
    requires Marked(req, at, s) && s.rest != [] && (Entered(req, s) ==> HasEntry(req, at, s))
    requires !s.right && s.left < |s.done| && !s.stop && cs <= s.cs
    requires !Entered(req, s) ==> cs == s.cs && ce == s.ce
    ensures Marked(req, at, Freed(req, s, cs, ce))
    ensures Entered(req, s) ==> HasEntry(req, at, Freed(req, s, cs, ce))
  {
  }

  /** The lock at `before` becomes the caller's entry. */
  function TakenOver(req: FileLock, s: State, cs: int, ce: int): State
    requires s.rest != []
  {
    s.(done := s.done + [FileLock(s.rest[0].slot, s.rest[0].owner, req.kind, cs, ce)], rest := s.rest[1..],
       cs := cs, ce := ce, added := true, mine := |s.done|)
  }

  lemma TakeOverLoose(list: seq<FileLock>, free: seq<nat>, req: FileLock, at: nat, s: State, cs: int, ce: int)
    requires Request(list, req, at) && Loosely(list, free, req, at, s) && s.rest != [] && s.rest[0].owner == req.owner
    requires !s.right && s.left < |s.done| && !s.stop && !s.added && Grown(list, req, cs, ce) && cs <= s.cs
      && req.kind != UnLck
    ensures Loosely(list, free, req, at, TakenOver(req, s, cs, ce))
  {
    var s' := TakenOver(req, s, cs, ce);
    var L, l := s.done + s.rest, s'.done[|s.done|];
    GrownEntry(list, req, cs, ce, l.slot);
    TakeOverMarked(req, at, s, cs, ce);
    assert L[|s.done|] == s.rest[0];
    WithinReplace(list, req, L, |s.done|, l);
    assert L[|s.done| := l] == s'.done + s'.rest;
    ShapeNext(list, req, at, s.done, s.rest, l);
    CountedNext(list, free, s.done, s.rest, s.free, l);
    hide Within, Grown, Counted, Shape, Marked, HasEntry, Request;
  }

  lemma TakeOverMarked(req: FileLock, at: nat, s: State, cs: int, ce: int)
    requires Marked(req, at, s) && s.rest != [] && at <= |s.done| && s.rest[0].owner == req.owner
    requires !s.right && s.left < |s.done| && !s.stop && cs <= s.cs
    ensures Marked(req, at, TakenOver(req, s, cs, ce)) && HasEntry(req, at, TakenOver(req, s, cs, ce))
  {
  }

  lemma ShapeNext(list: seq<FileLock>, req: FileLock, at: nat, done: seq<FileLock>, rest: seq<FileLock>, l: FileLock)
    requires Shape(list, req, at, done, rest) && rest != [] && l.owner == rest[0].owner == req.owner && LooseOK(l)
    ensures Shape(list, req, at, done + [l], rest[1..])
  {
    assert rest[1..] == list[|list| - |rest| + 1..];
    assert (done + [l])[..at] == done[..at];
  }

  lemma ShapeSkip(list: seq<FileLock>, req: FileLock, at: nat, done: seq<FileLock>, rest: seq<FileLock>)
    requires Shape(list, req, at, done, rest) && rest != [] && rest[0].owner == req.owner
    ensures Shape(list, req, at, done, rest[1..])
  {
    assert rest[1..] == list[|list| - |rest| + 1..];
  }

  lemma ShapeUpdate(list: seq<FileLock>, req: FileLock, at: nat, done: seq<FileLock>, rest: seq<FileLock>, i: nat,
          l: FileLock)
    requires Shape(list, req, at, done, rest) && at <= i < |done| && l.owner == req.owner && LooseOK(l)
    ensures Shape(list, req, at, done[i := l], rest)
  {
    assert done[i := l][..at] == done[..at];
  }

  // ---- on a well-formed list ----

  /** Where a scan of a well-formed list stands: see module LockScan. */
  datatype View = View(W: seq<FileLock>, at: nat, e: nat, n: nat, left: int, hit: bool)

  ghost predicate Seen(list: seq<FileLock>, req: FileLock, s: State, v: View) {
    Scan(list, req, v.W, v.at, v.e, v.n, v.left, s.cs, s.ce, v.hit)
  }

  /** The list in memory: passed locks, then the caller if it already has an entry, then the rest. */
  ghost predicate Layout(req: FileLock, s: State, v: View) {
    && v.n <= |v.W| && s.rest == v.W[v.n..]
    && (if Entered(req, s)
        then |s.done| == v.n + 1 && s.done[..v.n] == v.W[..v.n] && s.mine == v.n
        else s.done == v.W[..v.n])
  }

  /** Of the first m locks, none should have stopped the scan or reaches over the request, and it is known whether
      one of them became the caller's entry. */
  ghost predicate Past(list: seq<FileLock>, req: FileLock, m: nat, entered: bool) {
    && m <= |list|
    && (forall i :: 0 <= i < m ==> !ClashAt(list, req, i) && !OverAt(list, req, i))
    && (req.kind != UnLck ==> (entered <==> exists i :: 0 <= i < m && ReusesAt(list, req, i)))
  }

  /** The owner holds some byte of the request. */
  ghost predicate Touches(list: seq<FileLock>, req: FileLock) {
    exists k, x :: Covers(req, x) && Holds(list, req.owner, k, x)
  }

  /** Loop invariant, on a well-formed list. */
  ghost predicate Scanning(list: seq<FileLock>, free: seq<nat>, req: FileLock, s: State, v: View) {
    && ListOK(list) && Seen(list, req, s, v) && Layout(req, s, v)
    && (Entered(req, s) ==> v.hit)
    && (!v.hit || (!s.added && req.kind != UnLck) ==>
          v.W == list && s.free == free && s.cs == req.start && s.ce == req.end)
    && (req.kind == UnLck ==> (v.hit ==> s.added) && (s.added ==> Touches(list, req)))
    && Suffix(list, s.rest) && Past(list, req, |list| - |s.rest|, s.added)
  }

  ghost predicate Suffix(list: seq<FileLock>, rest: seq<FileLock>) {
    |rest| <= |list| && rest == list[|list| - |rest|..]
  }

  lemma SuffixNext(list: seq<FileLock>, rest: seq<FileLock>)
    requires Suffix(list, rest) && rest != []
    ensures Suffix(list, rest[1..]) && list[|list| - |rest|] == rest[0]
  {
    assert rest[1..] == list[|list| - |rest| + 1..];
  }

  lemma PastNext(list: seq<FileLock>, req: FileLock, m: nat, was: bool, now: bool)
    requires Past(list, req, m, was) && m < |list| && !ClashAt(list, req, m) && !OverAt(list, req, m)
    requires req.kind != UnLck ==> (now <==> was || ReusesAt(list, req, m))
    ensures Past(list, req, m + 1, now)
  {
  }

  /** What the lock at `before` looks like. */
  lemma Facts(list: seq<FileLock>, free: seq<nat>, req: FileLock, s: State, v: View)
    requires Scanning(list, free, req, s, v) && s.rest != [] && s.rest[0].owner == req.owner
    ensures v.n < |v.W| && s.rest[0] == v.W[v.n] && v.n < v.e && Seen(list, req, s, v) && LockOK(v.W[v.n])
    ensures |list| - |s.rest| >= 0 && list[|list| - |s.rest|] == s.rest[0]
    ensures v.hit ==> v.W[v.n].start > s.cs
    ensures s.cs <= req.start <= req.end <= s.ce && (!v.hit ==> v.W == list && v.left == -1) && v.left >= -1
    ensures s.ce != req.end ==> v.W[v.n].start > s.ce
    ensures s.cs != req.start ==> v.W[v.n].start >= req.start
    ensures req.end == OFFSET_MAX ==> s.cs == req.start
    ensures !s.added && req.kind != UnLck ==> s.cs == req.start && s.ce == req.end
    ensures req.kind == UnLck ==> s.cs == req.start && s.ce == req.end
  {
    hide SameEffect;
  }

  lemma PassSeen(list: seq<FileLock>, free: seq<nat>, req: FileLock, s: State, v: View, left: int, added: bool,
          v': View)
    requires Scanning(list, free, req, s, v) && s.rest != [] && s.rest[0].owner == req.owner && !v.hit
    requires v' == v.(n := v.n + 1, left := v'.left, hit := v'.hit) && Seen(list, req, s, v')
    requires added == s.added || (added && req.kind == UnLck && Touches(list, req))
    requires v'.hit && req.kind == UnLck ==> added
    requires var m := |list| - |s.rest|; m >= 0 && m < |list| && !ClashAt(list, req, m) && !OverAt(list, req, m)
                                         && (req.kind != UnLck ==> !ReusesAt(list, req, m))
    ensures Scanning(list, free, req, Passed(s).(left := left, added := added), v')
  {
    PastNext(list, req, |list| - |s.rest|, s.added, added);
    SuffixNext(list, s.rest);
    hide Scan, Past, ListOK, Touches, Suffix;
    assert v.W[..v.n + 1] == v.W[..v.n] + [v.W[v.n]] && s.rest[1..] == v.W[v.n + 1..];
  }

  lemma FreeLayout(req: FileLock, s: State, v: View, cs: int, ce: int)
    requires Layout(req, s, v) && s.rest != [] && v.n < |v.W| && s.added && v.e > 0
    ensures Layout(req, Freed(req, s, cs, ce), v.(W := Delete(v.W, v.n), e := v.e - 1, hit := true))
  {
    var D := Delete(v.W, v.n);
    assert D[..v.n] == v.W[..v.n] && D[v.n..] == v.W[v.n..][1..];
  }

  lemma TakeOverLayout(req: FileLock, s: State, v: View, cs: int, ce: int)
    requires Layout(req, s, v) && s.rest != [] && v.n < |v.W| && !s.added && v.e > 0 && req.kind != UnLck
    ensures Layout(req, TakenOver(req, s, cs, ce), v.(W := Delete(v.W, v.n), e := v.e - 1, hit := true))
  {
    var D := Delete(v.W, v.n);
    assert D[..v.n] == v.W[..v.n] && D[v.n..] == v.W[v.n..][1..];
  }

  lemma FreeSeen(list: seq<FileLock>, free: seq<nat>, req: FileLock, s: State, v: View, cs: int, ce: int)
    requires Scanning(list, free, req, s, v) && s.rest != [] && s.rest[0].owner == req.owner && s.added && v.n < v.e
    requires v.n < |v.W| && Scan(list, req, Delete(v.W, v.n), v.at, v.e - 1, v.n, v.left, cs, ce, true)
    requires var m := |list| - |s.rest|; m >= 0 && m < |list| && !ClashAt(list, req, m) && !OverAt(list, req, m)
    requires !Entered(req, s) ==> cs == s.cs && ce == s.ce
    ensures Scanning(list, free, req, Freed(req, s, cs, ce), v.(W := Delete(v.W, v.n), e := v.e - 1, hit := true))
  {
    hide Scan, Past, ListOK, Touches, Delete, ClashAt, OverAt, ReusesAt, Layout;
    PastNext(list, req, |list| - |s.rest|, true, true);
    SuffixNext(list, s.rest);
    FreeLayout(req, s, v, cs, ce);
    hide Suffix;
  }

  lemma TakeOverSeen(list: seq<FileLock>, free: seq<nat>, req: FileLock, s: State, v: View, cs: int, ce: int)
    requires Scanning(list, free, req, s, v) && s.rest != [] && s.rest[0].owner == req.owner && !s.added && v.n < v.e
    requires v.n < |v.W| && Scan(list, req, Delete(v.W, v.n), v.at, v.e - 1, v.n, v.left, cs, ce, true)
    requires var m := |list| - |s.rest|; m >= 0 && m < |list| && !ClashAt(list, req, m) && !OverAt(list, req, m)
                                         && ReusesAt(list, req, m)
    requires req.kind != UnLck
    ensures Scanning(list, free, req, TakenOver(req, s, cs, ce), v.(W := Delete(v.W, v.n), e := v.e - 1, hit := true))
  {
    PastNext(list, req, |list| - |s.rest|, false, true);
    SuffixNext(list, s.rest);
    TakeOverLayout(req, s, v, cs, ce);
    hide Scan, Past, ListOK, Touches, Suffix, Delete, ClashAt, OverAt, ReusesAt, Layout;
  }
}
