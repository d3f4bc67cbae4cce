/** What each step of the buffer cache does for its task, beside keeping the invariant (fs/buffer.c:354-530, 870-978):
    who gets a buffer, who waits, and for what. */
module BufferDoes {
  import opened BufferCache
  import opened BufferSteps
  import opened BufferHash

  /** No buffer has the block. */
  ghost predicate Absent(c: Cache, tag: Tag) {
    forall id :: !Bears(c, id, tag)
  }

  /** Only task t moved, to this; and of the buffers only this one's count changed, by d. */
  ghost predicate Moves(c: Cache, c': Cache, t: nat, x: Task, id: Id, d: int) {
    && t < |c.tasks| && c'.tasks == c.tasks[t := x]
    && id in c.bufs && c.bufs[id].count + d >= 0
    && c'.bufs == c.bufs[id := c.bufs[id].(count := c.bufs[id].count + d)]
    && c'.n == c.n && c'.sizes == c.sizes
  }

  /** Only task t moved. */
  ghost predicate MovesOnly(c: Cache, c': Cache, t: nat, x: Task) {
    t < |c.tasks| && c' == c.(tasks := c.tasks[t := x])
  }

  /** get_hash_table and the first part of getblk: a block that is cached is found.  The task gets its buffer, with one
      more user, or waits until it is unlocked, with two; and a clean buffer becomes the last of the list.  Only a block
      that is not cached is missing. */
  lemma LookupDoes(c: Cache, t: nat, tag: Tag)
    requires Inv(c) && Enabled(c, Lookup(t)) && c.tasks[t].pc == Asking(tag)
    ensures var c', held := Step(c, Lookup(t)), c.tasks[t].held;
      && (Absent(c, tag) ==> MovesOnly(c, c', t, Task(Missing(tag), held)))
      && forall id :: Bears(c, id, tag) ==>
           var b, h := c.bufs[id], Handle(id, tag);
           && (b.locked ==> Moves(c, c', t, Task(HashWait(h), held), id, 2) && c'.ring == c.ring)
           && (!b.locked ==> Moves(c, c', t, Task(Idle, held + [h]), id, 1)
                             && c'.ring == if b.uptodate && !b.dirty then ToEnd(c.ring, id) else c.ring)
  {
    assert TaskOK(c, c.tasks[t]);
    hide AllRefs, RingOK, TaskOK, BufOK, ToEnd;
    forall id | Bears(c, id, tag)
      ensures Cached(c, tag) && id == Find(c, tag)
    {
      assert PairOK(c, id, Find(c, tag));
    }
    if Cached(c, tag) {
      assert Bears(c, Find(c, tag), tag);
    }
  }

  /** A task that waited for the buffer it found gets it. */
  lemma FoundDoes(c: Cache, t: nat)
    requires Inv(c) && Enabled(c, Found(t))
    ensures var h := c.tasks[t].pc.h;
      && Bears(c, h.id, h.tag)
      && Moves(c, Step(c, Found(t)), t, Task(Idle, c.tasks[t].held + [h]), h.id, -1)
  {
    WakeFoundOK(c, t);
    hide AllRefs, Inv, ToEnd;
  }

  /** The buffer can be taken over for the block, by a task that accounts for `own` of its users. */
  ghost predicate Free(c: Cache, tag: Tag, id: Id, own: nat) {
    && id in c.bufs && c.bufs[id].count == own && !c.bufs[id].dirty && Absent(c, tag)
    && tag.Tag? && tag.dev in c.sizes && c.bufs[id].size == c.sizes[tag.dev]
  }

  /** The task has the buffer, as its only user, for the block; it is the last of the list and has no data yet. */
  ghost predicate Gets(c: Cache, c': Cache, t: nat, tag: Tag, id: Id) {
    && t < |c.tasks| && c'.tasks == c.tasks[t := Task(Idle, c.tasks[t].held + [Handle(id, tag)])]
    && id in c.bufs && c'.bufs == c.bufs[id := c.bufs[id].(tag := tag, count := 1, dirty := false, uptodate := false)]
    && c'.ring == ToEnd(c.ring, id) && c'.n == c.n && c'.sizes == c.sizes
  }

  /** getblk with a buffer that it may take over: it waits for a locked one; it takes an unlocked one exactly if it is
      unused, clean, of the right size, and the block is still not cached; otherwise it starts again. */
  lemma ScanDoes(c: Cache, t: nat, tag: Tag, id: Id)
    requires Inv(c) && Enabled(c, Scan(t, id)) && c.tasks[t].pc == Missing(tag)
    ensures var c', held := Step(c, Scan(t, id)), c.tasks[t].held;
      if c.bufs[id].locked then Moves(c, c', t, Task(VictimWait(tag, id), held), id, 1) && c'.ring == c.ring
      else if Free(c, tag, id, 0) then Gets(c, c', t, tag, id)
      else MovesOnly(c, c', t, Task(Asking(tag), held))
  {
    CachedIs(c, tag);
    hide AllRefs, Inv, ToEnd, Cached;
  }

  lemma CachedIs(c: Cache, tag: Tag)
    ensures Cached(c, tag) <==> !Absent(c, tag)
  {
    if Cached(c, tag) { assert Bears(c, Find(c, tag), tag); }
    if id :| Bears(c, id, tag) { assert id in c.bufs && c.bufs[id].tag == tag; }
  }

  /** The same once the buffer is unlocked: nobody else may have come to use it. */
  lemma WokenDoes(c: Cache, t: nat, tag: Tag, id: Id)
    requires Inv(c) && Enabled(c, Woken(t)) && c.tasks[t].pc == VictimWait(tag, id)
    ensures var c', held := Step(c, Woken(t)), c.tasks[t].held;
      if Free(c, tag, id, 1) then Gets(c, c', t, tag, id)
      else Moves(c, c', t, Task(Asking(tag), held), id, -1) && c'.ring == c.ring
  {
    WakeVictimOK(c, t);
    var c1 := Set(Counted(c, id, -1), t, c.tasks[t].(pc := Missing(tag)));
    forall i ensures Bears(c1, i, tag) <==> Bears(c, i, tag) { }
    CachedIs(c1, tag);
    hide AllRefs, Inv, ToEnd, Cached;
    assert c1.tasks[t := Task(Asking(tag), c.tasks[t].held)] == c.tasks[t := Task(Asking(tag), c.tasks[t].held)];
  }

  /** brelse: one user fewer and the handle is gone, at once or when the buffer is unlocked. */
  lemma ReleaseDoes(c: Cache, t: nat, k: nat)
    requires Inv(c) && Enabled(c, Release(t, k))
    ensures var c', held := Step(c, Release(t, k)), c.tasks[t].held;
      && c'.ring == c.ring && held[k].id in c.bufs
      && if c.bufs[held[k].id].locked then Moves(c, c', t, Task(RelseWait(k, held[k].id), held), held[k].id, 1)
         else Moves(c, c', t, Task(Idle, Without(held, k)), held[k].id, -1)
  {
    RelseOK(c, t, k);
    hide AllRefs, Inv;
  }

  lemma ReleasedDoes(c: Cache, t: nat)
    requires Inv(c) && Enabled(c, Released(t))
    ensures var c', held, p := Step(c, Released(t)), c.tasks[t].held, c.tasks[t].pc;
      && p.k < |held| && held[p.k].id == p.id && c'.ring == c.ring
      && Moves(c, c', t, Task(Idle, Without(held, p.k)), p.id, -2)
  {
    WakeReleased(c, t);
    WakeRelseOK(c, t);
    hide AllRefs, Inv;
  }

  lemma WakeReleased(c: Cache, t: nat)
    requires Inv(c) && t < |c.tasks| && c.tasks[t].pc.RelseWait?
    ensures c.tasks[t].pc.k < |c.tasks[t].held| && c.tasks[t].held[c.tasks[t].pc.k].id == c.tasks[t].pc.id
  {
    assert TaskOK(c, c.tasks[t]);
  }

  /** A request begins; without a candidate it begins again; a buffer that is written out has one more user until that
      is done; drivers set flags and nothing else. */
  lemma OthersDo(c: Cache, op: Op)
    requires Inv(c) && Enabled(c, op)
    ensures var c' := Step(c, op);
      match op
      case Begin(t, tag) => MovesOnly(c, c', t, Task(Asking(tag), c.tasks[t].held))
      case NoVictim(t) => MovesOnly(c, c', t, Task(Asking(c.tasks[t].pc.tag), c.tasks[t].held))
      case Write(t, id) => Moves(c, c', t, Task(Writing(id), c.tasks[t].held), id, 1) && c'.ring == c.ring
      case Written(t) =>
        Moves(c, c', t, Task(Idle, c.tasks[t].held), c.tasks[t].pc.id, -1) && c'.ring == c.ring
      case Flags(id, dirty, locked, uptodate) =>
        var b := c.bufs[id];
        c' == c.(bufs := c.bufs[id := Buf(b.tag, b.size, b.count, dirty, locked, uptodate, b.page)])
      case _ => true
  {
    match op
    case Written(t) =>
      WrittenOK(c, t);
      hide AllRefs, Inv;
    case _ => hide AllRefs, Inv;
  }

  /** A new buffer: no block, no user, no data. */
  predicate New(b: Buf, page: nat, size: nat) {
    b == Buf(NoTag, size, 0, false, false, false, page)
  }

  /** grow_buffers adds these buffers, each in front of the list, and leaves the others alone. */
  lemma {:induction false} GrowDoes(c: Cache, ids: seq<Id>, page: nat, size: nat)
    requires (forall i, j :: 0 <= i < j < |ids| ==> ids[i] != ids[j]) && forall id :: id in ids ==> id !in c.bufs
    ensures var c' := GrowBy(c, ids, page, size);
      && c'.tasks == c.tasks && c'.n == c.n + |ids| && |c'.ring| == |ids| + |c.ring| && c'.ring[|ids|..] == c.ring
      && (forall i :: 0 <= i < |ids| ==> c'.ring[i] == ids[|ids| - 1 - i])
      && (forall id :: id in c'.bufs <==> id in c.bufs || id in ids)
      && (forall id :: id in c.bufs ==> c'.bufs[id] == c.bufs[id])
      && (forall id :: id in ids ==> New(c'.bufs[id], page, size))
    decreases |ids|
  {
    if ids != [] {
      var c1 := c.(bufs := c.bufs[ids[0] := Buf(NoTag, size, 0, false, false, false, page)],
                   ring := [ids[0]] + c.ring, n := c.n + 1);
      assert forall i :: 0 <= i < |ids[1..]| ==> ids[1..][i] == ids[i + 1];
      GrowDoes(c1, ids[1..], page, size);
      var c' := GrowBy(c, ids, page, size);
      assert c'.ring[|ids|..] == c'.ring[|ids| - 1..][1..];
      assert c'.ring[|ids| - 1] == c'.ring[|ids| - 1..][0];
      assert ids == [ids[0]] + ids[1..];
    }
  }

  /** try_to_free takes away exactly the buffers of the page, and keeps the others in their order. */
  lemma ShrinkDoes(c: Cache, page: nat)
    requires Inv(c)
    ensures var c' := ShrinkBy(c, page);
      && c'.tasks == c.tasks && c'.n == |c'.ring|
      && (forall id :: id in c'.bufs <==> id in c.bufs && c.bufs[id].page != page)
      && (forall id :: id in c'.bufs ==> c'.bufs[id] == c.bufs[id])
      && (forall id :: id in c'.ring <==> id in c'.bufs)
      && InOrder(c'.ring, c.ring)
  {
    hide AllRefs;
    KeepOffOK(c, c.ring, page);
    KeepOffOrder(c, c.ring, page);
  }

  /** q is what is left of r when some are taken out. */
  ghost predicate InOrder(q: seq<Id>, r: seq<Id>) {
    q == [] || (r != [] && ((q[0] == r[0] && InOrder(q[1..], r[1..])) || InOrder(q, r[1..])))
  }

  lemma {:induction false} KeepOffOrder(c: Cache, r: seq<Id>, page: nat)
    ensures InOrder(KeepOff(c, r, page), r)
  {
    if r != [] {
      KeepOffOrder(c, r[1..], page);
      if !(r[0] in c.bufs && c.bufs[r[0]].page == page) {
        assert KeepOff(c, r, page)[1..] == KeepOff(c, r[1..], page);
      } else {
        assert KeepOff(c, r, page) == KeepOff(c, r[1..], page);
      }
    }
  }
}
