/** Every step keeps the invariant of the buffer cache, in every interleaving. */
module BufferSteps {
  import opened BufferCache

  /** The counts follow the references of the one task that moved; blocks stay where they are. */
  ghost predicate BufFollows(c: Cache, c': Cache, t: nat, x: Task, id: Id)
    requires t < |c.tasks|
  {
    && (id in c.bufs <==> id in c'.bufs)
    && (id in c.bufs ==>
          && c'.bufs[id].tag == c.bufs[id].tag && c'.bufs[id].size == c.bufs[id].size
          && c'.bufs[id].page == c.bufs[id].page
          && c'.bufs[id].count + Refs(c.tasks[t], id) == c.bufs[id].count + Refs(x, id))
  }

  ghost predicate Follows(c: Cache, c': Cache, t: nat, x: Task) {
    && t < |c.tasks| && c'.tasks == c.tasks[t := x] && c'.sizes == c.sizes
    && forall id {:trigger BufFollows(c, c', t, x, id)} :: BufFollows(c, c', t, x, id)
  }

  lemma {:induction false} FollowsInv(c: Cache, c': Cache, t: nat, x: Task)
    requires Inv(c) && Follows(c, c', t, x) && TaskOK(c', x) && RingOK(c')
    ensures Inv(c')
  {
    hide AllRefs, Refs, RingOK;
    forall id | id in c'.bufs
      ensures BufOK(c', id)
    {
      assert BufFollows(c, c', t, x, id);
      assert BufOK(c, id);
      AllRefsUpdate(c.tasks, t, x, id);
    }
    forall i, j | i in c'.bufs && j in c'.bufs
      ensures PairOK(c', i, j)
    {
      assert BufFollows(c, c', t, x, i) && BufFollows(c, c', t, x, j);
      assert PairOK(c, i, j);
    }
    forall u | 0 <= u < |c'.tasks|
      ensures TaskOK(c', c'.tasks[u])
    {
      if u != t { TaskKept(c, c', t, x, u); }
    }
  }

  lemma {:induction false} TaskKept(c: Cache, c': Cache, t: nat, x: Task, u: nat)
    requires Inv(c) && Follows(c, c', t, x) && u < |c.tasks|
    ensures TaskOK(c', c.tasks[u])
  {
    hide AllRefs, Refs, RingOK;
    assert TaskOK(c, c.tasks[u]);
    forall h: Handle | HandleOK(c, h)
      ensures HandleOK(c', h)
    {
      assert BufFollows(c, c', t, x, h.id);
    }
    forall id | id in c.bufs ensures id in c'.bufs { assert BufFollows(c, c', t, x, id); }
  }

  lemma RingKept(c: Cache, c': Cache)
    requires RingOK(c) && c'.bufs.Keys == c.bufs.Keys && c'.n == c.n
    requires c'.ring == c.ring || exists id :: id in c.ring && c'.ring == ToEnd(c.ring, id)
    ensures RingOK(c')
  {
    assert forall id :: id in c'.bufs <==> id in c'.bufs.Keys;
    assert forall id :: id in c.bufs <==> id in c.bufs.Keys;
    if c'.ring != c.ring {
      var id :| id in c.ring && c'.ring == ToEnd(c.ring, id);
      ToEndOK(c.ring, id);
    }
  }

  /** A task moves without touching a buffer. */
  lemma {:induction false} MoveInv(c: Cache, t: nat, x: Task)
    requires Inv(c) && t < |c.tasks| && x.held == c.tasks[t].held && TaskOK(c, x)
    requires forall id :: Passing(x.pc, id) == Passing(c.tasks[t].pc, id)
    ensures Inv(Set(c, t, x))
  {
    hide AllRefs, RingOK, CountId, Passing;
    var c' := Set(c, t, x);
    forall id ensures BufFollows(c, c', t, x, id) { }
    RingKept(c, c');
    forall h: Handle | HandleOK(c, h) ensures HandleOK(c', h) { }
    FollowsInv(c, c', t, x);
  }

  /** A referenced buffer is counted. */
  lemma {:induction false} Counts(c: Cache, t: nat, id: Id)
    requires Inv(c) && t < |c.tasks| && id in c.bufs
    ensures c.bufs[id].count >= Refs(c.tasks[t], id)
  {
    hide RingOK;
    assert BufOK(c, id);
    AllRefsAtLeast(c.tasks, t, id);
  }

  /** One buffer's count changes by d, and the task's references to it do too. */
  lemma {:induction false} CountInv(c: Cache, t: nat, id: Id, d: int, x: Task, ring: seq<Id>)
    requires Inv(c) && t < |c.tasks| && id in c.bufs && c.bufs[id].count + d >= 0
    requires forall i :: Refs(x, i) == Refs(c.tasks[t], i) + if i == id then d else 0
    requires ring == c.ring || ring == ToEnd(c.ring, id)
    requires TaskOK(Counted(c, id, d), x)
    ensures Inv(Set(Counted(c, id, d), t, x).(ring := ring))
  {
    hide AllRefs, RingOK, Refs;
    var c' := Set(Counted(c, id, d), t, x).(ring := ring);
    forall i ensures BufFollows(c, c', t, x, i) { }
    assert c'.bufs.Keys == c.bufs.Keys;
    InRing(c, id);
    RingKept(c, c');
    SameTask(Counted(c, id, d), c', x);
    FollowsInv(c, c', t, x);
  }

  lemma InRing(c: Cache, id: Id)
    requires Inv(c) && id in c.bufs
    ensures id in c.ring && RingOK(c)
  {
  }

  lemma SameTask(c: Cache, c': Cache, x: Task)
    requires TaskOK(c, x) && c'.bufs == c.bufs && c'.sizes == c.sizes
    ensures TaskOK(c', x)
  {
    forall h: Handle | HandleOK(c, h) ensures HandleOK(c', h) { }
  }

  lemma CountedOK(c: Cache, id: Id, d: int, x: Task)
    requires TaskOK(c, x) && id in c.bufs && c.bufs[id].count + d >= 0
    ensures TaskOK(Counted(c, id, d), x)
  {
    forall h: Handle | HandleOK(c, h) ensures HandleOK(Counted(c, id, d), h) { }
  }

  // ---- one lemma for each piece of the code ----

  lemma {:induction false} GiveOK(c: Cache, t: nat, h: Handle, d: int)
    requires Inv(c) && t < |c.tasks| && HandleOK(c, h) && c.bufs[h.id].count + d >= 0
    requires forall i :: Passing(c.tasks[t].pc, i) == if i == h.id then 1 - d else 0
    ensures Inv(Give(Counted(c, h.id, d), t, h))
  {
    hide AllRefs, RingOK, CountId, Passing;
    var task := c.tasks[t];
    var x := task.(pc := Idle, held := task.held + [h]);
    assert TaskOK(c, task);
    var c1 := Counted(c, h.id, d);
    forall i ensures Refs(x, i) == Refs(task, i) + (if i == h.id then d else 0) {
      CountAppend(task.held, h, i);
      assert Passing(Idle, i) == 0 by { NothingPassing(i); }
    }
    assert TaskOK(c, x) by { MoreHeld(c, task, h); }
    CountedOK(c, h.id, d, x);
    var b := c1.bufs[h.id];
    CountInv(c, t, h.id, d, x, if b.uptodate && !b.dirty then ToEnd(c.ring, h.id) else c.ring);
    assert Set(c1, t, x).(ring := c.ring) == Set(c1, t, x);
  }

  lemma NothingPassing(i: Id)
    ensures Passing(Idle, i) == 0
  {
  }

  lemma MoreHeld(c: Cache, task: Task, h: Handle)
    requires TaskOK(c, task) && HandleOK(c, h)
    ensures TaskOK(c, task.(pc := Idle, held := task.held + [h]))
  {
  }

  lemma {:induction false} LookUpOK(c: Cache, t: nat)
    requires Inv(c) && t < |c.tasks| && c.tasks[t].pc.Asking?
    ensures Inv(LookUp(c, t))
  {
    hide AllRefs, RingOK, CountId;
    var task := c.tasks[t];
    var tag := task.pc.tag;
    assert TaskOK(c, task);
    if !Cached(c, tag) {
      MoveInv(c, t, task.(pc := Missing(tag)));
    } else {
      var id := Find(c, tag);
      var h := Handle(id, tag);
      if c.bufs[id].locked {
        var x := task.(pc := HashWait(h));
        CountedOK(c, id, 2, x);
        CountInv(c, t, id, 2, x, c.ring);
        assert Set(Counted(c, id, 2), t, x).(ring := c.ring) == Set(Counted(c, id, 2), t, x);
      } else {
        GiveOK(c, t, h, 1);
      }
    }
  }

  lemma {:induction false} WakeFoundOK(c: Cache, t: nat)
    requires Inv(c) && t < |c.tasks| && c.tasks[t].pc.HashWait?
    ensures HandleOK(c, c.tasks[t].pc.h) && c.bufs[c.tasks[t].pc.h.id].count >= 2
    ensures Inv(WakeFound(c, t))
  {
    hide AllRefs, RingOK, CountId;
    assert TaskOK(c, c.tasks[t]);
    Counts(c, t, c.tasks[t].pc.h.id);
    GiveOK(c, t, c.tasks[t].pc.h, -1);
  }

  /** Taking over a buffer that nobody refers to, for a block that is not cached. */
  lemma {:induction false} RetagOK(c: Cache, t: nat, tag: Tag, id: Id)
    requires Inv(c) && t < |c.tasks| && id in c.bufs && tag.Tag? && tag.dev in c.sizes
    requires c.bufs[id].count == 0 && c.bufs[id].size == c.sizes[tag.dev] && !c.bufs[id].dirty && !Cached(c, tag)
    requires forall i :: Passing(c.tasks[t].pc, i) == 0
    ensures Inv(Claim(c, t, tag, id))
  {
    hide AllRefs, RingOK, CountId, Passing, BufOK, TaskOK;
    var task := c.tasks[t];
    var h := Handle(id, tag);
    var c' := Claim(c, t, tag, id);
    assert c'.bufs.Keys == c.bufs.Keys;
    InRing(c, id);
    RingKept(c, c');
    forall i | i in c'.bufs
      ensures BufOK(c', i)
    {
      RetagBuf(c, t, tag, id, i);
    }
    forall i, j | i in c'.bufs && j in c'.bufs
      ensures PairOK(c', i, j)
    {
      assert PairOK(c, i, j);
    }
    forall u | 0 <= u < |c'.tasks|
      ensures TaskOK(c', c'.tasks[u])
    {
      Untouched(c, u, id);
      UntouchedTask(c, c', u, id);
      if u == t { MoreHeld(c', task.(pc := Idle), h); }
    }
  }

  lemma {:induction false} RetagBuf(c: Cache, t: nat, tag: Tag, id: Id, i: Id)
    requires Inv(c) && t < |c.tasks| && id in c.bufs && tag.Tag? && tag.dev in c.sizes && i in c.bufs
    requires c.bufs[id].count == 0 && c.bufs[id].size == c.sizes[tag.dev] && !c.bufs[id].dirty && !Cached(c, tag)
    requires forall i :: Passing(c.tasks[t].pc, i) == 0
    ensures i in Claim(c, t, tag, id).bufs && BufOK(Claim(c, t, tag, id), i)
  {
    hide AllRefs, RingOK, CountId, Passing;
    var task := c.tasks[t];
    var h := Handle(id, tag);
    assert BufOK(c, i);
    AllRefsUpdate(c.tasks, t, task.(pc := Idle, held := task.held + [h]), i);
    CountAppend(task.held, h, i);
    NothingPassing(i);
  }

  /** No task refers to a buffer whose count is zero. */
  lemma {:induction false} Untouched(c: Cache, u: nat, id: Id)
    requires Inv(c) && u < |c.tasks| && id in c.bufs && c.bufs[id].count == 0
    ensures Passing(c.tasks[u].pc, id) == 0 && forall k :: 0 <= k < |c.tasks[u].held| ==> c.tasks[u].held[k].id != id
  {
    hide AllRefs, RingOK;
    Counts(c, u, id);
    forall k | 0 <= k < |c.tasks[u].held|
      ensures c.tasks[u].held[k].id != id
    {
      CountHeld(c.tasks[u].held, k);
    }
  }

  lemma {:induction false} UntouchedTask(c: Cache, c': Cache, u: nat, id: Id)
    requires Inv(c) && u < |c.tasks| && c'.sizes == c.sizes
    requires forall i :: i in c.bufs && i != id ==> i in c'.bufs && c'.bufs[i].tag == c.bufs[i].tag
    requires Passing(c.tasks[u].pc, id) == 0 && forall k :: 0 <= k < |c.tasks[u].held| ==> c.tasks[u].held[k].id != id
    ensures TaskOK(c', c.tasks[u]) && TaskOK(c', c.tasks[u].(pc := Idle))
  {
    hide AllRefs, RingOK, CountId;
    assert TaskOK(c, c.tasks[u]);
  }

  lemma {:induction false} ClaimOK(c: Cache, t: nat, tag: Tag, id: Id)
    requires Inv(c) && t < |c.tasks| && id in c.bufs && tag.Tag? && tag.dev in c.sizes && c.tasks[t].pc == Missing(tag)
    ensures Inv(Claim(c, t, tag, id))
  {
    hide AllRefs, RingOK, CountId;
    var b := c.bufs[id];
    if b.count > 0 || b.size != c.sizes[tag.dev] || b.dirty || Cached(c, tag) {
      assert TaskOK(c, c.tasks[t]);
      MoveInv(c, t, c.tasks[t].(pc := Asking(tag)));
    } else {
      RetagOK(c, t, tag, id);
    }
  }

  lemma {:induction false} ScanOK(c: Cache, t: nat, id: Id)
    requires Inv(c) && t < |c.tasks| && c.tasks[t].pc.Missing? && id in c.bufs && c.tasks[t].pc.tag.Tag?
      && c.tasks[t].pc.tag.dev in c.sizes
    ensures Inv(ScanFor(c, t, id))
  {
    hide AllRefs, RingOK, CountId, Claim;
    var task := c.tasks[t];
    assert TaskOK(c, task);
    if c.bufs[id].locked {
      var x := task.(pc := VictimWait(task.pc.tag, id));
      CountedOK(c, id, 1, x);
      CountInv(c, t, id, 1, x, c.ring);
      assert Set(Counted(c, id, 1), t, x).(ring := c.ring) == Set(Counted(c, id, 1), t, x);
    } else {
      ClaimOK(c, t, task.pc.tag, id);
    }
  }

  lemma {:induction false} WakeVictimOK(c: Cache, t: nat)
    requires Inv(c) && t < |c.tasks| && c.tasks[t].pc.VictimWait?
    ensures c.tasks[t].pc.id in c.bufs && c.bufs[c.tasks[t].pc.id].count >= 1 && c.tasks[t].pc.tag.Tag?
      && c.tasks[t].pc.tag.dev in c.sizes
    ensures Inv(WakeVictim(c, t))
  {
    hide AllRefs, RingOK, CountId, Claim;
    var task := c.tasks[t];
    var p := task.pc;
    assert TaskOK(c, task);
    Counts(c, t, p.id);
    var x := task.(pc := Missing(p.tag));
    CountedOK(c, p.id, -1, x);
    CountInv(c, t, p.id, -1, x, c.ring);
    var c1 := Set(Counted(c, p.id, -1), t, x);
    assert c1.(ring := c.ring) == c1;
    ClaimOK(c1, t, p.tag, p.id);
  }

  lemma {:induction false} RelseOK(c: Cache, t: nat, k: nat)
    requires Inv(c) && t < |c.tasks| && c.tasks[t].pc == Idle && k < |c.tasks[t].held|
    ensures c.tasks[t].held[k].id in c.bufs && c.bufs[c.tasks[t].held[k].id].count >= 1
    ensures Inv(Relse(c, t, k))
  {
    hide AllRefs, RingOK, CountId;
    var task := c.tasks[t];
    assert TaskOK(c, task) && HandleOK(c, task.held[k]);
    var id := task.held[k].id;
    CountHeld(task.held, k);
    Counts(c, t, id);
    if c.bufs[id].locked {
      var x := task.(pc := RelseWait(k, id));
      CountedOK(c, id, 1, x);
      CountInv(c, t, id, 1, x, c.ring);
      assert Set(Counted(c, id, 1), t, x).(ring := c.ring) == Set(Counted(c, id, 1), t, x);
    } else {
      var x := task.(held := Without(task.held, k));
      DroppedOK(c, t, k, -1, x);
    }
  }

  lemma {:induction false} DroppedOK(c: Cache, t: nat, k: nat, d: int, x: Task)
    requires Inv(c) && t < |c.tasks| && k < |c.tasks[t].held| && x == Task(Idle, Without(c.tasks[t].held, k))
    requires c.tasks[t].held[k].id in c.bufs && c.bufs[c.tasks[t].held[k].id].count + d >= 0
    requires forall i :: Passing(c.tasks[t].pc, i) == if i == c.tasks[t].held[k].id then -1 - d else 0
    ensures Inv(Set(Counted(c, c.tasks[t].held[k].id, d), t, x))
  {
    hide AllRefs, RingOK, CountId, Passing;
    var task := c.tasks[t];
    var id := task.held[k].id;
    assert TaskOK(c, task);
    forall i ensures Refs(x, i) == Refs(task, i) + (if i == id then d else 0) {
      CountWithout(task.held, k, i);
      NothingPassing(i);
    }
    assert TaskOK(c, x) by { FewerHeld(c, task, k); }
    CountedOK(c, id, d, x);
    CountInv(c, t, id, d, x, c.ring);
    assert Set(Counted(c, id, d), t, x).(ring := c.ring) == Set(Counted(c, id, d), t, x);
  }

  lemma FewerHeld(c: Cache, task: Task, k: nat)
    requires TaskOK(c, task) && k < |task.held|
    ensures TaskOK(c, Task(Idle, Without(task.held, k)))
  {
    var w := Without(task.held, k);
    forall i | 0 <= i < |w| ensures HandleOK(c, w[i]) { assert w[i] == task.held[if i < k then i else i + 1]; }
  }

  lemma {:induction false} WakeRelseOK(c: Cache, t: nat)
    requires Inv(c) && t < |c.tasks| && c.tasks[t].pc.RelseWait?
    ensures c.tasks[t].pc.k < |c.tasks[t].held| && c.tasks[t].pc.id in c.bufs && c.bufs[c.tasks[t].pc.id].count >= 2
    ensures Inv(WakeRelse(c, t))
  {
    hide AllRefs, RingOK, CountId;
    var task := c.tasks[t];
    assert TaskOK(c, task) && HandleOK(c, task.held[task.pc.k]);
    CountHeld(task.held, task.pc.k);
    Counts(c, t, task.pc.id);
    DroppedOK(c, t, task.pc.k, -2, Task(Idle, Without(task.held, task.pc.k)));
  }

  lemma {:induction false} WriteOK(c: Cache, t: nat, id: Id)
    requires Inv(c) && t < |c.tasks| && c.tasks[t].pc == Idle && id in c.bufs
    ensures Inv(Set(Counted(c, id, 1), t, c.tasks[t].(pc := Writing(id))))
  {
    hide AllRefs, RingOK, CountId;
    var x := c.tasks[t].(pc := Writing(id));
    assert TaskOK(c, c.tasks[t]);
    CountedOK(c, id, 1, x);
    CountInv(c, t, id, 1, x, c.ring);
    assert Set(Counted(c, id, 1), t, x).(ring := c.ring) == Set(Counted(c, id, 1), t, x);
  }

  lemma {:induction false} WrittenOK(c: Cache, t: nat)
    requires Inv(c) && t < |c.tasks| && c.tasks[t].pc.Writing?
    ensures c.tasks[t].pc.id in c.bufs && c.bufs[c.tasks[t].pc.id].count >= 1
    ensures Inv(Set(Counted(c, c.tasks[t].pc.id, -1), t, c.tasks[t].(pc := Idle)))
  {
    hide AllRefs, RingOK, CountId;
    var id := c.tasks[t].pc.id;
    var x := c.tasks[t].(pc := Idle);
    assert TaskOK(c, c.tasks[t]);
    Counts(c, t, id);
    CountedOK(c, id, -1, x);
    CountInv(c, t, id, -1, x, c.ring);
    assert Set(Counted(c, id, -1), t, x).(ring := c.ring) == Set(Counted(c, id, -1), t, x);
  }

  /** Nothing but flags has changed, or buffers that hold nothing were added or taken away. */
  lemma {:induction false} OthersInv(c: Cache, c': Cache)
    requires Inv(c) && RingOK(c') && c'.tasks == c.tasks && c'.sizes == c.sizes
    requires forall id :: id in c.bufs && id in c'.bufs ==>
      c'.bufs[id].tag == c.bufs[id].tag && c'.bufs[id].size == c.bufs[id].size && c'.bufs[id].count == c.bufs[id].count
    requires forall id :: id in c'.bufs && id !in c.bufs ==>
      c'.bufs[id].tag == NoTag && c'.bufs[id].count == 0 == AllRefs(c.tasks, id)
    requires forall id :: id in c.bufs && id !in c'.bufs ==> c.bufs[id].count == 0
    ensures Inv(c')
  {
    hide AllRefs, RingOK, CountId;
    forall id | id in c'.bufs ensures BufOK(c', id) { if id in c.bufs { assert BufOK(c, id); } }
    forall i, j | i in c'.bufs && j in c'.bufs
      ensures PairOK(c', i, j)
    {
      if i in c.bufs && j in c.bufs { assert PairOK(c, i, j); }
    }
    forall u | 0 <= u < |c.tasks|
      ensures TaskOK(c', c.tasks[u])
    {
      StillThere(c, c', u);
    }
  }

  lemma {:induction false} StillThere(c: Cache, c': Cache, u: nat)
    requires Inv(c) && u < |c.tasks| && c'.sizes == c.sizes
    requires forall id :: id in c.bufs && id in c'.bufs ==> c'.bufs[id].tag == c.bufs[id].tag
    requires forall id :: id in c.bufs && id !in c'.bufs ==> c.bufs[id].count == 0
    ensures TaskOK(c', c.tasks[u])
  {
    hide AllRefs, RingOK, CountId;
    var task := c.tasks[u];
    assert TaskOK(c, task);
    forall k | 0 <= k < |task.held|
      ensures HandleOK(c', task.held[k])
    {
      var id := task.held[k].id;
      assert HandleOK(c, task.held[k]);
      if id !in c'.bufs { Untouched(c, u, id); }
    }
    match task.pc
    case HashWait(h) => if h.id !in c'.bufs { Untouched(c, u, h.id); }
    case VictimWait(_, id) => if id !in c'.bufs { Untouched(c, u, id); }
    case Writing(id) => if id !in c'.bufs { Untouched(c, u, id); }
    case _ =>
  }

  lemma {:induction false} GrowOK(c: Cache, ids: seq<Id>, page: nat, size: nat)
    requires Inv(c) && (forall i, j :: 0 <= i < j < |ids| ==> ids[i] != ids[j])
    requires forall id :: id in ids ==> id !in c.bufs && AllRefs(c.tasks, id) == 0
    ensures Inv(GrowBy(c, ids, page, size)) && GrowBy(c, ids, page, size).n == c.n + |ids|
    decreases |ids|
  {
    hide AllRefs, CountId;
    if ids != [] {
      var c1 := c.(bufs := c.bufs[ids[0] := Buf(NoTag, size, 0, false, false, false, page)], ring := [ids[0]] + c.ring,
        n := c.n + 1);
      assert ids[0] !in c.ring;
      OthersInv(c, c1);
      assert forall i :: 0 <= i < |ids[1..]| ==> ids[1..][i] == ids[i + 1];
      GrowOK(c1, ids[1..], page, size);
    }
  }

  lemma {:induction false} KeepOffOK(c: Cache, ring: seq<Id>, page: nat)
    requires forall i, j :: 0 <= i < j < |ring| ==> ring[i] != ring[j]
    ensures var r := KeepOff(c, ring, page);
            && (forall i, j :: 0 <= i < j < |r| ==> r[i] != r[j])
            && (forall x :: x in r <==> x in ring && !(x in c.bufs && c.bufs[x].page == page))
  {
    if ring != [] {
      var tail := ring[1..];
      assert forall i :: 0 <= i < |tail| ==> tail[i] == ring[i + 1];
      KeepOffOK(c, tail, page);
      assert ring == [ring[0]] + tail;
      var k := KeepOff(c, tail, page);
      assert forall i :: 0 <= i < |k| ==> k[i] in tail;
      assert forall i :: 0 <= i < |tail| ==> tail[i] != ring[0];
    }
  }

  lemma {:induction false} ShrinkOK(c: Cache, page: nat)
    requires Inv(c) && forall id :: id in c.bufs && c.bufs[id].page == page ==> c.bufs[id].count == 0
    ensures Inv(ShrinkBy(c, page))
  {
    hide AllRefs, CountId;
    KeepOffOK(c, c.ring, page);
    OthersInv(c, ShrinkBy(c, page));
  }

  // ---- runs ----

  ghost function Step(c: Cache, op: Op): Cache
    requires Inv(c) && Enabled(c, op)
  {
    match op
    case Begin(t, tag) => Set(c, t, c.tasks[t].(pc := Asking(tag)))
    case Lookup(t) => LookUp(c, t)
    case Found(t) => WakeFoundOK(c, t); WakeFound(c, t)
    case Grow(ids, page, size) => GrowBy(c, ids, page, size)
    case Scan(t, id) => ScanFor(c, t, id)
    case NoVictim(t) => Set(c, t, c.tasks[t].(pc := Asking(c.tasks[t].pc.tag)))
    case Woken(t) => WakeVictimOK(c, t); WakeVictim(c, t)
    case Release(t, k) => RelseOK(c, t, k); Relse(c, t, k)
    case Released(t) => WakeRelseOK(c, t); WakeRelse(c, t)
    case Write(t, id) => Set(Counted(c, id, 1), t, c.tasks[t].(pc := Writing(id)))
    case Written(t) => WrittenOK(c, t); Set(Counted(c, c.tasks[t].pc.id, -1), t, c.tasks[t].(pc := Idle))
    case Flags(id, dirty, locked, uptodate) =>
      c.(bufs := c.bufs[id := c.bufs[id].(dirty := dirty, locked := locked, uptodate := uptodate)])
    case Shrink(page) => ShrinkBy(c, page)
  }

  lemma {:induction false} StepInv(c: Cache, op: Op)
    requires Inv(c) && Enabled(c, op)
    ensures Inv(Step(c, op))
  {
    hide AllRefs, RingOK, CountId, LookUp, WakeFound, GrowBy, ScanFor, WakeVictim, Relse, WakeRelse, ShrinkBy;
    match op
    case Begin(t, tag) =>
      assert TaskOK(c, c.tasks[t]);
      MoveInv(c, t, c.tasks[t].(pc := Asking(tag)));
    case Lookup(t) => LookUpOK(c, t);
    case Found(t) => WakeFoundOK(c, t);
    case Grow(ids, page, size) => GrowOK(c, ids, page, size);
    case Scan(t, id) => ScanOK(c, t, id);
    case NoVictim(t) =>
      assert TaskOK(c, c.tasks[t]);
      MoveInv(c, t, c.tasks[t].(pc := Asking(c.tasks[t].pc.tag)));
    case Woken(t) => WakeVictimOK(c, t);
    case Release(t, k) => RelseOK(c, t, k);
    case Released(t) => WakeRelseOK(c, t);
    case Write(t, id) => WriteOK(c, t, id);
    case Written(t) => WrittenOK(c, t);
    case Flags(id, _, _, _) =>
      var c' := Step(c, op);
      assert c'.bufs.Keys == c.bufs.Keys;
      RingKept(c, c');
      OthersInv(c, c');
    case Shrink(page) => ShrinkOK(c, page);
  }

  /** The buffer has a user besides the task that has just woken up to take it over. */
  ghost predicate Busy(c: Cache, op: Op, id: Id) {
    id in c.bufs && c.bufs[id].count > if op.Woken? && op.t < |c.tasks| && c.tasks[op.t].pc.VictimWait?
      && c.tasks[op.t].pc.id == id then 1 else 0
  }

  /** A buffer with users is neither given to another block nor taken away, whatever anyone does. */
  lemma {:induction false} UsedStays(c: Cache, op: Op, id: Id)
    requires Inv(c) && Enabled(c, op) && Busy(c, op, id)
    ensures id in Step(c, op).bufs && Step(c, op).bufs[id].tag == c.bufs[id].tag
      && Step(c, op).bufs[id].size == c.bufs[id].size
  {
    hide AllRefs, RingOK, CountId, Inv, ToEnd, Passing;
    match op
    case Grow(ids, page, size) => GrowKeeps(c, ids, page, size, id);
    case Scan(t, i) => ClaimKeeps(c, t, c.tasks[t].pc.tag, i, id);
    case Woken(t) => WokenKeeps(c, t, id);
    case _ =>
  }

  lemma ClaimKeeps(c: Cache, t: nat, tag: Tag, i: Id, id: Id)
    requires t < |c.tasks| && i in c.bufs && tag.Tag? && tag.dev in c.sizes && id in c.bufs && c.bufs[id].count > 0
    ensures id in Claim(c, t, tag, i).bufs && Claim(c, t, tag, i).bufs[id] == c.bufs[id]
  {
    hide ToEnd, Cached;
  }

  lemma WokenKeeps(c: Cache, t: nat, id: Id)
    requires Inv(c) && Enabled(c, Woken(t)) && Busy(c, Woken(t), id)
    ensures id in Step(c, Woken(t)).bufs && Step(c, Woken(t)).bufs[id].tag == c.bufs[id].tag
      && Step(c, Woken(t)).bufs[id].size == c.bufs[id].size
  {
    WakeVictimOK(c, t);
    hide AllRefs, RingOK, CountId, Inv, Claim, Passing;
    var p := c.tasks[t].pc;
    var c1 := Set(Counted(c, p.id, -1), t, c.tasks[t].(pc := Missing(p.tag)));
    ClaimKeeps(c1, t, p.tag, p.id, id);
  }

  /** Who has been given a buffer is such a user. */
  lemma {:induction false} HeldIsBusy(c: Cache, op: Op, t: nat, k: nat)
    requires Inv(c) && t < |c.tasks| && k < |c.tasks[t].held|
    ensures Busy(c, op, c.tasks[t].held[k].id)
  {
    hide AllRefs, RingOK, CountId;
    var id := c.tasks[t].held[k].id;
    assert TaskOK(c, c.tasks[t]) && HandleOK(c, c.tasks[t].held[k]);
    CountHeld(c.tasks[t].held, k);
    Counts(c, t, id);
    if op.Woken? && op.t < |c.tasks| && c.tasks[op.t].pc.VictimWait? && c.tasks[op.t].pc.id == id && op.t != t {
      assert BufOK(c, id);
      TwoUsers(c.tasks, t, op.t, id);
    }
  }

  lemma {:induction false} TwoUsers(ts: seq<Task>, t: nat, u: nat, id: Id)
    requires t < |ts| && u < |ts| && t != u
    ensures AllRefs(ts, id) >= Refs(ts[t], id) + Refs(ts[u], id)
  {
    var last := |ts| - 1;
    if t == last {
      AllRefsAtLeast(ts[..last], u, id);
    } else if u == last {
      AllRefsAtLeast(ts[..last], t, id);
    } else {
      TwoUsers(ts[..last], t, u, id);
    }
  }

  lemma {:induction false} GrowKeeps(c: Cache, ids: seq<Id>, page: nat, size: nat, id: Id)
    requires id in c.bufs && forall i :: i in ids ==> i !in c.bufs
    requires forall i, j :: 0 <= i < j < |ids| ==> ids[i] != ids[j]
    ensures id in GrowBy(c, ids, page, size).bufs && GrowBy(c, ids, page, size).bufs[id] == c.bufs[id]
    decreases |ids|
  {
    if ids != [] {
      var c1 := c.(bufs := c.bufs[ids[0] := Buf(NoTag, size, 0, false, false, false, page)], ring := [ids[0]] + c.ring,
        n := c.n + 1);
      assert forall i :: 0 <= i < |ids[1..]| ==> ids[1..][i] == ids[i + 1];
      GrowKeeps(c1, ids[1..], page, size, id);
    }
  }

  ghost predicate Runs(c: Cache, ops: seq<Op>)
    decreases |ops|
  {
    Inv(c) && (ops == [] || (Enabled(c, ops[0]) && Runs(Step(c, ops[0]), ops[1..])))
  }

  ghost function Run(c: Cache, ops: seq<Op>): Cache
    requires Runs(c, ops)
    decreases |ops|
  {
    if ops == [] then c else Run(Step(c, ops[0]), ops[1..])
  }

  /** A run goes on as long as its steps can happen: the invariant never stops it. */
  ghost predicate Possible(c: Cache, ops: seq<Op>)
    requires Inv(c)
    decreases |ops|
  {
    ops == [] || (Enabled(c, ops[0]) && (StepInv(c, ops[0]); Possible(Step(c, ops[0]), ops[1..])))
  }

  /** At the start there are no buffers, and no task uses any (fs/buffer.c:987-1001). */
  ghost predicate Started(c: Cache) {
    && c.bufs == map[] && c.ring == [] && c.n == 0
    && forall t :: 0 <= t < |c.tasks| ==> c.tasks[t] == Task(Idle, [])
  }

  lemma StartedInv(c: Cache)
    requires Started(c)
    ensures Inv(c)
  {
    forall t | 0 <= t < |c.tasks| ensures TaskOK(c, c.tasks[t]) { assert c.tasks[t] == Task(Idle, []); }
  }

  /** In every interleaving: at most one buffer for a block, counts are the numbers of users, the list holds
      every buffer once, and nr_buffers is its length. */
  lemma {:induction false} RunInv(c: Cache, ops: seq<Op>)
    requires Inv(c) && Possible(c, ops)
    ensures Runs(c, ops) && Inv(Run(c, ops))
    decreases |ops|
  {
    hide Inv, Enabled, Step;
    if ops != [] {
      StepInv(c, ops[0]);
      RunInv(Step(c, ops[0]), ops[1..]);
    }
  }

  /** Two callers that were given a buffer for the same block were given the same buffer. */
  lemma OneBuffer(c: Cache, t: nat, k: nat, t': nat, k': nat)
    requires Inv(c) && t < |c.tasks| && k < |c.tasks[t].held| && t' < |c.tasks| && k' < |c.tasks[t'].held|
    requires c.tasks[t].held[k].tag == c.tasks[t'].held[k'].tag
    ensures c.tasks[t].held[k].id == c.tasks[t'].held[k'].id
  {
    hide AllRefs, RingOK, CountId;
    assert TaskOK(c, c.tasks[t]) && TaskOK(c, c.tasks[t']);
    var h, h' := c.tasks[t].held[k], c.tasks[t'].held[k'];
    assert HandleOK(c, h) && HandleOK(c, h');
    assert PairOK(c, h.id, h'.id);
  }

  /** A handle stays good until it is given back: over any run in which the buffer keeps a user, it holds the
      same block. */
  lemma {:induction false} RunKeeps(c: Cache, ops: seq<Op>, id: Id)
    requires Inv(c) && Possible(c, ops) && id in c.bufs && InUse(c, ops, id)
    ensures Runs(c, ops) && id in Run(c, ops).bufs && Run(c, ops).bufs[id].tag == c.bufs[id].tag
    decreases |ops|
  {
    hide Inv, Enabled, Step;
    if ops != [] {
      StepInv(c, ops[0]);
      UsedStays(c, ops[0], id);
      RunKeeps(Step(c, ops[0]), ops[1..], id);
      RunInv(c, ops);
    }
  }

  /** The buffer has a user before every step of the run. */
  ghost predicate InUse(c: Cache, ops: seq<Op>, id: Id)
    requires Inv(c) && Possible(c, ops)
    decreases |ops|
  {
    ops == [] || (Busy(c, ops[0], id) && (StepInv(c, ops[0]); InUse(Step(c, ops[0]), ops[1..], id)))
  }

  /** A step of getblk gives its task nothing, or a buffer for the block that was asked for. */
  lemma {:induction false} GetsTheBlock(c: Cache, op: Op)
    requires Inv(c) && Enabled(c, op) && (op.Lookup? || op.Found? || op.Scan? || op.Woken?)
    ensures var task, task' := c.tasks[op.t], Step(c, op).tasks[op.t];
            var tag := if task.pc.HashWait? then task.pc.h.tag else task.pc.tag;
            task'.held == task.held || (task'.pc == Idle && |task'.held| == |task.held| + 1
                                        && task'.held == task.held + [Handle(task'.held[|task.held|].id, tag)])
  {
    hide AllRefs, RingOK, CountId, ToEnd, Passing, Cached;
    if op.Found? { WakeFoundOK(c, op.t); }
    if op.Woken? { WakeVictimOK(c, op.t); }
    hide Inv;
  }
}
