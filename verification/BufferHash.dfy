/** The hash queues of the buffer cache (fs/buffer.c:276-368), beside the steps of `BufferSteps`: which buffers stand
    in which queue, and what a walk along a queue finds.  `BufferLists.Queue` is one queue with its links. */
module BufferHash {
  import opened BufferCache
  import opened BufferSteps

  const NR_HASH: nat := 997

  /** The buffers in each queue, first to last. */
  type Queues = map<nat, seq<Id>>

  function Queue(qs: Queues, h: nat): seq<Id> {
    if h in qs then qs[h] else []
  }

  /** _hashfn (fs/buffer.c:276), of 32-bit numbers. */
  function Hash(tag: Tag): nat {
    match tag
    case NoTag => 0
    case Tag(dev, block) => ((dev % 0x1_0000_0000) as bv32 ^ (block % 0x1_0000_0000) as bv32) as nat % NR_HASH
  }

  datatype Lookup = Missed | Hit(id: Id)

  /** find_buffer (fs/buffer.c:354-368): the first buffer with this device and block ends the walk. */
  function Walk(c: Cache, q: seq<Id>, tag: Tag, size: nat): Lookup {
    if q == [] then Missed
    else if q[0] in c.bufs && c.bufs[q[0]].tag == tag then
      if c.bufs[q[0]].size == size then Hit(q[0]) else Missed
    else Walk(c, q[1..], tag, size)
  }

  predicate Bears(c: Cache, id: Id, tag: Tag) {
    id in c.bufs && c.bufs[id].tag == tag
  }

  ghost predicate NoTwice(q: seq<Id>) {
    forall i, j :: 0 <= i < j < |q| ==> q[i] != q[j]
  }

  /** A buffer with a block stands once in the queue of that block's hash, and nothing else stands in a queue. */
  ghost predicate QueueOK(c: Cache, qs: Queues, h: nat) {
    && NoTwice(Queue(qs, h))
    && forall id :: id in Queue(qs, h) <==> id in c.bufs && c.bufs[id].tag.Tag? && Hash(c.bufs[id].tag) == h
  }

  ghost predicate Hashed(c: Cache, qs: Queues) {
    forall h {:trigger QueueOK(c, qs, h)} :: QueueOK(c, qs, h)
  }

  /** remove_from_hash_queue. */
  function Dequeued(qs: Queues, h: nat, id: Id): Queues {
    qs[h := DropFrom(Queue(qs, h), id)]
  }

  /** insert_into_queues. */
  function Enqueued(qs: Queues, h: nat, id: Id): Queues {
    qs[h := [id] + Queue(qs, h)]
  }

  /** The end of getblk: a buffer that is taken over changes its queue (fs/buffer.c:511-514). */
  function Moved(c: Cache, c': Cache, id: Id, qs: Queues): Queues
    requires id in c.bufs && id in c'.bufs
  {
    if c'.bufs[id].tag == c.bufs[id].tag then qs
    else
      var left := if c.bufs[id].tag.Tag? then Dequeued(qs, Hash(c.bufs[id].tag), id) else qs;
      Enqueued(left, Hash(c'.bufs[id].tag), id)
  }

  /** try_to_free: the buffers of a page leave their queues. */
  function WithoutPage(c: Cache, qs: Queues, page: nat): Queues {
    map h | h in qs :: KeepOff(c, qs[h], page)
  }

  lemma {:induction false} WalkFinds(c: Cache, q: seq<Id>, tag: Tag, size: nat)
    requires forall id :: Bears(c, id, tag) ==> c.bufs[id].size == size
    ensures match Walk(c, q, tag, size)
            case Missed => forall id :: id in q ==> !Bears(c, id, tag)
            case Hit(id) => id in q && Bears(c, id, tag)
  {
    if q != [] {
      assert q == [q[0]] + q[1..];
      if !Bears(c, q[0], tag) { WalkFinds(c, q[1..], tag, size); }
    }
  }

  /** Walking the queue of a block's hash finds its buffer exactly when there is one. */
  lemma FindsCached(c: Cache, qs: Queues, tag: Tag)
    requires Inv(c) && Hashed(c, qs) && tag.Tag? && tag.dev in c.sizes
    ensures Walk(c, Queue(qs, Hash(tag)), tag, c.sizes[tag.dev])
         == if Cached(c, tag) then Hit(Find(c, tag)) else Missed
  {
    hide AllRefs, TaskOK, RingOK, Hash, Walk;
    var q := Queue(qs, Hash(tag));
    assert QueueOK(c, qs, Hash(tag));
    forall id | Bears(c, id, tag) ensures c.bufs[id].size == c.sizes[tag.dev] { assert BufOK(c, id); }
    WalkFinds(c, q, tag, c.sizes[tag.dev]);
    if Cached(c, tag) {
      var id := Find(c, tag);
      assert id in q && Bears(c, id, tag);
      forall i | Bears(c, i, tag) ensures i == id { assert PairOK(c, i, id); }
    }
  }

  // ---- the queues step by step ----

  ghost function StepQueues(c: Cache, op: Op, qs: Queues): Queues
    requires Inv(c) && Enabled(c, op)
  {
    match op
    case Scan(t, id) => ScanTags(c, t, id); Moved(c, Step(c, op), id, qs)
    case Woken(t) => WokenTags(c, t); Moved(c, Step(c, op), c.tasks[t].pc.id, qs)
    case Shrink(page) => WithoutPage(c, qs, page)
    case _ => qs
  }

  /** Only the tag of this buffer may have changed, and then to one of a block. */
  ghost predicate Retagged(c: Cache, c': Cache, id: Id) {
    && id in c.bufs && id in c'.bufs && (c'.bufs[id].tag == c.bufs[id].tag || c'.bufs[id].tag.Tag?)
    && forall i, tag :: i != id ==> (Bears(c', i, tag) <==> Bears(c, i, tag))
  }

  /** The same buffers have blocks, and the same ones. */
  ghost predicate SameTags(c: Cache, c': Cache) {
    forall i, tag: Tag {:trigger Bears(c, i, tag)} {:trigger Bears(c', i, tag)} ::
      tag.Tag? ==> (Bears(c', i, tag) <==> Bears(c, i, tag))
  }

  lemma ClaimTags(c: Cache, t: nat, tag: Tag, id: Id)
    requires t < |c.tasks| && id in c.bufs && tag.Tag? && tag.dev in c.sizes
    ensures Retagged(c, Claim(c, t, tag, id), id)
  {
    hide ToEnd, Cached;
  }

  lemma ScanTags(c: Cache, t: nat, id: Id)
    requires Inv(c) && Enabled(c, Scan(t, id))
    ensures Retagged(c, Step(c, Scan(t, id)), id)
  {
    hide AllRefs, Claim, Inv;
    ClaimTags(c, t, c.tasks[t].pc.tag, id);
  }

  lemma WokenTags(c: Cache, t: nat)
    requires Inv(c) && Enabled(c, Woken(t))
    ensures t < |c.tasks| && c.tasks[t].pc.VictimWait? && Retagged(c, Step(c, Woken(t)), c.tasks[t].pc.id)
  {
    WakeVictimOK(c, t);
    hide AllRefs, Claim, Inv;
    var p := c.tasks[t].pc;
    var c1 := Set(Counted(c, p.id, -1), t, c.tasks[t].(pc := Missing(p.tag)));
    ClaimTags(c1, t, p.tag, p.id);
    assert forall i, tag :: Bears(c1, i, tag) <==> Bears(c, i, tag);
  }

  lemma {:induction false} GrowTags(c: Cache, ids: seq<Id>, page: nat, size: nat)
    requires (forall i, j :: 0 <= i < j < |ids| ==> ids[i] != ids[j]) && forall id :: id in ids ==> id !in c.bufs
    ensures SameTags(c, GrowBy(c, ids, page, size))
    decreases |ids|
  {
    if ids != [] {
      var c1 := c.(bufs := c.bufs[ids[0] := Buf(NoTag, size, 0, false, false, false, page)],
                   ring := [ids[0]] + c.ring, n := c.n + 1);
      assert forall i :: 0 <= i < |ids[1..]| ==> ids[1..][i] == ids[i + 1];
      GrowTags(c1, ids[1..], page, size);
      forall i, tag: Tag | tag.Tag? ensures Bears(c1, i, tag) <==> Bears(c, i, tag) { }
    }
  }

  /** The steps that are left change no tag. */
  lemma {:induction false} OtherTags(c: Cache, op: Op)
    requires Inv(c) && Enabled(c, op) && !op.Scan? && !op.Woken? && !op.Shrink?
    ensures SameTags(c, Step(c, op))
  {
    if op.Grow? {
      GrowTags(c, op.ids, op.page, op.size);
    } else {
      forall i, tag: Tag | tag.Tag? ensures Bears(Step(c, op), i, tag) <==> Bears(c, i, tag) { TagStays(c, op, i); }
    }
  }

  lemma {:induction false} TagStays(c: Cache, op: Op, i: Id)
    requires Inv(c) && Enabled(c, op) && !op.Scan? && !op.Woken? && !op.Shrink? && !op.Grow?
    ensures i in Step(c, op).bufs <==> i in c.bufs
    ensures i in c.bufs ==> Step(c, op).bufs[i].tag == c.bufs[i].tag
  {
    hide AllRefs, Inv, ToEnd, Cached, Passing;
    match op
    case Found(t) => WakeFoundOK(c, t);
    case Release(t, k) => RelseOK(c, t, k);
    case Released(t) => WakeRelseOK(c, t);
    case Written(t) => WrittenOK(c, t);
    case _ =>
  }

  lemma {:induction false} SameHashed(c: Cache, c': Cache, qs: Queues)
    requires Hashed(c, qs) && SameTags(c, c')
    ensures Hashed(c', qs)
  {
    hide Hash;
    forall h ensures QueueOK(c', qs, h) {
      assert QueueOK(c, qs, h);
      forall id ensures id in Queue(qs, h) <==> id in c'.bufs && c'.bufs[id].tag.Tag? && Hash(c'.bufs[id].tag) == h {
        if id in c.bufs { assert Bears(c, id, c.bufs[id].tag); }
        if id in c'.bufs { assert Bears(c', id, c'.bufs[id].tag); }
      }
    }
  }

  lemma {:induction false} MovedHashed(c: Cache, c': Cache, qs: Queues, id: Id)
    requires Hashed(c, qs) && Retagged(c, c', id)
    ensures Hashed(c', Moved(c, c', id, qs))
  {
    hide Hash, DropFrom;
    var qs' := Moved(c, c', id, qs);
    forall h ensures QueueOK(c', qs', h) {
      assert QueueOK(c, qs, h);
      DropFromOK(Queue(qs, h), id);
      forall i | i != id
        ensures i in c'.bufs && c'.bufs[i].tag.Tag? && Hash(c'.bufs[i].tag) == h
           <==> i in c.bufs && c.bufs[i].tag.Tag? && Hash(c.bufs[i].tag) == h
      {
        if i in c.bufs { assert Bears(c, i, c.bufs[i].tag); }
        if i in c'.bufs { assert Bears(c', i, c'.bufs[i].tag); }
      }
      var d := DropFrom(Queue(qs, h), id);
      assert id !in Queue(qs, h) || id !in d;
    }
  }

  lemma {:induction false} ShrinkHashed(c: Cache, qs: Queues, page: nat)
    requires Hashed(c, qs)
    ensures Hashed(ShrinkBy(c, page), WithoutPage(c, qs, page))
  {
    hide Hash, KeepOff;
    var qs', c' := WithoutPage(c, qs, page), ShrinkBy(c, page);
    forall h ensures QueueOK(c', qs', h) {
      assert QueueOK(c, qs, h);
      KeepOffOK(c, Queue(qs, h), page);
      assert Queue(qs', h) == if h in qs then KeepOff(c, Queue(qs, h), page) else [];
      assert forall id :: id in c'.bufs <==> id in c.bufs && c.bufs[id].page != page;
    }
  }

  /** Every step leaves every buffer in the queue where a look-up of its block will walk. */
  lemma StepHashed(c: Cache, op: Op, qs: Queues)
    requires Inv(c) && Enabled(c, op) && Hashed(c, qs)
    ensures Hashed(Step(c, op), StepQueues(c, op, qs))
  {
    hide Inv, Hashed, Step, Moved, Enabled, ShrinkBy;
    match op
    case Scan(t, id) =>
      ScanTags(c, t, id);
      MovedHashed(c, Step(c, op), qs, id);
    case Woken(t) =>
      WokenTags(c, t);
      MovedHashed(c, Step(c, op), qs, c.tasks[t].pc.id);
    case Shrink(page) =>
      ShrinkHashed(c, qs, page);
      assert Step(c, op) == ShrinkBy(c, page) by { ShrinkIs(c, page); }
    case _ =>
      OtherTags(c, op);
      SameHashed(c, Step(c, op), qs);
  }

  lemma ShrinkIs(c: Cache, page: nat)
    requires Inv(c) && Enabled(c, Shrink(page))
    ensures Step(c, Shrink(page)) == ShrinkBy(c, page)
  {
  }

  ghost function RunQueues(c: Cache, ops: seq<Op>, qs: Queues): Queues
    requires Inv(c) && Possible(c, ops)
    decreases |ops|
  {
    if ops == [] then qs
    else (StepInv(c, ops[0]); RunQueues(Step(c, ops[0]), ops[1..], StepQueues(c, ops[0], qs)))
  }

  /** From the start on, in every interleaving, find_buffer finds a block's buffer exactly when it is cached. */
  lemma {:induction false} RunHashed(c: Cache, ops: seq<Op>, qs: Queues)
    requires Inv(c) && Possible(c, ops) && Hashed(c, qs)
    ensures Runs(c, ops) && Hashed(Run(c, ops), RunQueues(c, ops, qs))
    decreases |ops|
  {
    hide Inv, Hashed, Step, StepQueues, Enabled;
    RunInv(c, ops);
    if ops != [] {
      StepInv(c, ops[0]);
      StepHashed(c, ops[0], qs);
      RunHashed(Step(c, ops[0]), ops[1..], StepQueues(c, ops[0], qs));
    }
  }

  lemma StartedHashed(c: Cache)
    requires Started(c)
    ensures Hashed(c, map[])
  {
  }

  /** From the start on, whatever the tasks do, walking a queue finds a block's buffer exactly when it is cached. */
  lemma RunFinds(c: Cache, ops: seq<Op>, tag: Tag)
    requires Started(c) && (StartedInv(c); Possible(c, ops)) && tag.Tag? && tag.dev in c.sizes
    ensures Runs(c, ops) && tag.dev in Run(c, ops).sizes
    ensures (StartedInv(c);
             var c', qs' := Run(c, ops), RunQueues(c, ops, map[]);
             Walk(c', Queue(qs', Hash(tag)), tag, c'.sizes[tag.dev])
               == if Cached(c', tag) then Hit(Find(c', tag)) else Missed)
  {
    hide Inv, Hashed, Hash, Walk, Step;
    StartedInv(c);
    StartedHashed(c);
    RunInv(c, ops);
    RunHashed(c, ops, map[]);
    SizesStay(c, ops);
    FindsCached(Run(c, ops), RunQueues(c, ops, map[]), tag);
  }

  lemma {:induction false} SizesStay(c: Cache, ops: seq<Op>)
    requires Runs(c, ops)
    ensures Run(c, ops).sizes == c.sizes
    decreases |ops|
  {
    hide Inv, Enabled, Step;
    if ops != [] {
      SizesStep(c, ops[0]);
      SizesStay(Step(c, ops[0]), ops[1..]);
    }
  }

  lemma {:induction false} SizesStep(c: Cache, op: Op)
    requires Inv(c) && Enabled(c, op)
    ensures Step(c, op).sizes == c.sizes
  {
    match op
    case Grow(ids, page, size) => SizesGrow(c, ids, page, size);
    case _ => hide AllRefs, Inv, ToEnd, Cached, Find, Passing, Without, KeepOff, RingOK;
  }

  lemma {:induction false} SizesGrow(c: Cache, ids: seq<Id>, page: nat, size: nat)
    ensures GrowBy(c, ids, page, size).sizes == c.sizes
    decreases |ids|
  {
    if ids != [] {
      SizesGrow(c.(bufs := c.bufs[ids[0] := Buf(NoTag, size, 0, false, false, false, page)],
                   ring := [ids[0]] + c.ring, n := c.n + 1), ids[1..], page, size);
    }
  }
}
