/** The buffer cache shared by tasks that may sleep inside it (fs/buffer.c:68-83, 354-390, 444-530, 870-978).
    A step is what a task does between two points where it can sleep; drivers may change the flags of any
    buffer at any time.  Every device has one block size. */
module BufferCache {

  type Id = nat

  /** What a buffer holds: nothing (b_dev is 0), or a block of a device. */
  datatype Tag = NoTag | Tag(dev: nat, block: nat)

  datatype Buf = Buf(tag: Tag, size: nat, count: nat, dirty: bool, locked: bool, uptodate: bool, page: nat)

  /** A buffer that some caller has been given for a block. */
  datatype Handle = Handle(id: Id, tag: Tag)

  /** Where a task is: outside, about to look a block up, asleep on the buffer it found, past a look-up that
      failed, asleep on a buffer it wants to take over, asleep in brelse, or writing a buffer out. */
  datatype Pc =
    | Idle
    | Asking(tag: Tag)
    | HashWait(h: Handle)
    | Missing(tag: Tag)
    | VictimWait(tag: Tag, id: Id)
    | RelseWait(k: nat, id: Id)
    | Writing(id: Id)

  datatype Task = Task(pc: Pc, held: seq<Handle>)

  /** `ring` is the circular list, from free_list on; `n` is nr_buffers. */
  datatype Cache = Cache(bufs: map<Id, Buf>, ring: seq<Id>, n: int, tasks: seq<Task>, sizes: map<nat, nat>)

  // ---- references ----

  function CountId(held: seq<Handle>, id: Id): nat {
    if held == [] then 0 else CountId(held[..|held| - 1], id) + if held[|held| - 1].id == id then 1 else 0
  }

  /** References that are not handles: sleeping counts one, and finding a block counts one before the caller
      gets it. */
  function Passing(pc: Pc, id: Id): nat {
    match pc
    case HashWait(h) => if h.id == id then 2 else 0
    case VictimWait(_, i) => if i == id then 1 else 0
    case RelseWait(_, i) => if i == id then 1 else 0
    case Writing(i) => if i == id then 1 else 0
    case _ => 0
  }

  function Refs(t: Task, id: Id): nat {
    CountId(t.held, id) + Passing(t.pc, id)
  }

  function AllRefs(ts: seq<Task>, id: Id): nat {
    if ts == [] then 0 else AllRefs(ts[..|ts| - 1], id) + Refs(ts[|ts| - 1], id)
  }

  lemma {:induction false} AllRefsUpdate(ts: seq<Task>, t: nat, x: Task, id: Id)
    requires t < |ts|
    ensures AllRefs(ts[t := x], id) + Refs(ts[t], id) == AllRefs(ts, id) + Refs(x, id)
  {
    var last := |ts| - 1;
    if t == last {
      assert ts[t := x][..last] == ts[..last];
    } else {
      AllRefsUpdate(ts[..last], t, x, id);
      assert ts[t := x][..last] == ts[..last][t := x];
    }
  }

  lemma {:induction false} AllRefsAtLeast(ts: seq<Task>, t: nat, id: Id)
    requires t < |ts|
    ensures AllRefs(ts, id) >= Refs(ts[t], id)
  {
    if t < |ts| - 1 { AllRefsAtLeast(ts[..|ts| - 1], t, id); }
  }

  lemma CountAppend(held: seq<Handle>, h: Handle, id: Id)
    ensures CountId(held + [h], id) == CountId(held, id) + if h.id == id then 1 else 0
  {
    assert (held + [h])[..|held|] == held;
  }

  function Without(held: seq<Handle>, k: nat): seq<Handle>
    requires k < |held|
  {
    held[..k] + held[k + 1..]
  }

  lemma {:induction false} CountWithout(held: seq<Handle>, k: nat, id: Id)
    requires k < |held|
    ensures CountId(held, id) == CountId(Without(held, k), id) + if held[k].id == id then 1 else 0
  {
    var last := |held| - 1;
    if k == last {
      assert Without(held, k) == held[..last];
    } else {
      CountWithout(held[..last], k, id);
      assert Without(held, k)[..last - 1] == Without(held[..last], k);
      assert Without(held, k)[last - 1] == held[last];
    }
  }

  lemma {:induction false} CountHeld(held: seq<Handle>, k: nat)
    requires k < |held|
    ensures CountId(held, held[k].id) >= 1
  {
    CountWithout(held, k, held[k].id);
  }

  // ---- the invariant ----

  ghost predicate BufOK(c: Cache, id: Id)
    requires id in c.bufs
  {
    && c.bufs[id].count == AllRefs(c.tasks, id)
    && (c.bufs[id].tag.Tag? ==> c.bufs[id].tag.dev in c.sizes && c.bufs[id].size == c.sizes[c.bufs[id].tag.dev])
  }

  /** At most one buffer for a block. */
  ghost predicate PairOK(c: Cache, i: Id, j: Id)
    requires i in c.bufs && j in c.bufs
  {
    c.bufs[i].tag == c.bufs[j].tag != NoTag ==> i == j
  }

  ghost predicate HandleOK(c: Cache, h: Handle) {
    h.id in c.bufs && h.tag.Tag? && c.bufs[h.id].tag == h.tag
  }

  ghost predicate TaskOK(c: Cache, t: Task) {
    && (forall k {:trigger t.held[k]} :: 0 <= k < |t.held| ==> HandleOK(c, t.held[k]))
    && match t.pc
       case Idle => true
       case Asking(tag) => tag.Tag? && tag.dev in c.sizes
       case HashWait(h) => HandleOK(c, h)
       case Missing(tag) => tag.Tag? && tag.dev in c.sizes
       case VictimWait(tag, id) => tag.Tag? && tag.dev in c.sizes && id in c.bufs
       case RelseWait(k, id) => k < |t.held| && t.held[k].id == id
       case Writing(id) => id in c.bufs
  }

  /** The list holds every buffer once, and nr_buffers is its length. */
  ghost predicate RingOK(c: Cache) {
    && c.n == |c.ring|
    && (forall i, j :: 0 <= i < j < |c.ring| ==> c.ring[i] != c.ring[j])
    && (forall id :: id in c.ring <==> id in c.bufs)
  }

  ghost predicate Inv(c: Cache) {
    && (forall id {:trigger BufOK(c, id)} :: id in c.bufs ==> BufOK(c, id))
    && (forall i, j {:trigger PairOK(c, i, j)} :: i in c.bufs && j in c.bufs ==> PairOK(c, i, j))
    && (forall t {:trigger TaskOK(c, c.tasks[t])} :: 0 <= t < |c.tasks| ==> TaskOK(c, c.tasks[t]))
    && RingOK(c)
  }

  // ---- pieces of the code ----

  ghost predicate Cached(c: Cache, tag: Tag) {
    exists id :: id in c.bufs && c.bufs[id].tag == tag
  }

  /** find_buffer (fs/buffer.c:354-368). */
  ghost function Find(c: Cache, tag: Tag): (id: Id)
    requires Cached(c, tag)
    ensures id in c.bufs && c.bufs[id].tag == tag
  {
    var id :| id in c.bufs && c.bufs[id].tag == tag;
    id
  }

  function Counted(c: Cache, id: Id, d: int): Cache
    requires id in c.bufs && c.bufs[id].count + d >= 0
  {
    c.(bufs := c.bufs[id := c.bufs[id].(count := c.bufs[id].count + d)])
  }

  function Set(c: Cache, t: nat, x: Task): Cache
    requires t < |c.tasks|
  {
    c.(tasks := c.tasks[t := x])
  }

  function DropFrom(ring: seq<Id>, id: Id): seq<Id> {
    if ring == [] then [] else if ring[0] == id then ring[1..] else [ring[0]] + DropFrom(ring[1..], id)
  }

  /** put_last_free (fs/buffer.c:320-334), and taking a buffer off the list and putting it at the end. */
  function ToEnd(ring: seq<Id>, id: Id): seq<Id> {
    DropFrom(ring, id) + [id]
  }

  lemma {:induction false} DropFromOK(ring: seq<Id>, id: Id)
    requires forall i, j :: 0 <= i < j < |ring| ==> ring[i] != ring[j]
    ensures var r := DropFrom(ring, id);
            && (forall i, j :: 0 <= i < j < |r| ==> r[i] != r[j])
            && (forall x :: x in r <==> x in ring && x != id)
            && |r| == |ring| - if id in ring then 1 else 0
  {
    if ring != [] {
      var tail := ring[1..];
      assert forall i :: 0 <= i < |tail| ==> tail[i] == ring[i + 1];
      DropFromOK(tail, id);
      assert ring == [ring[0]] + tail;
      if ring[0] != id {
        var d := DropFrom(tail, id);
        assert forall i :: 0 <= i < |d| ==> d[i] in tail;
        assert forall i :: 0 <= i < |tail| ==> tail[i] != ring[0];
      }
    }
  }

  lemma ToEndOK(ring: seq<Id>, id: Id)
    requires (forall i, j :: 0 <= i < j < |ring| ==> ring[i] != ring[j]) && id in ring
    ensures var r := ToEnd(ring, id);
            && (forall i, j :: 0 <= i < j < |r| ==> r[i] != r[j]) && |r| == |ring|
            && (forall x :: x in r <==> x in ring)
  {
    DropFromOK(ring, id);
    var d := DropFrom(ring, id);
    assert forall i :: 0 <= i < |d| ==> d[i] in d;
  }

  // ---- the steps ----

  datatype Op =
    | Begin(t: nat, tag: Tag)
    | Lookup(t: nat)
    | Found(t: nat)
    | Grow(ids: seq<Id>, page: nat, size: nat)
    | Scan(t: nat, id: Id)
    | NoVictim(t: nat)
    | Woken(t: nat)
    | Release(t: nat, k: nat)
    | Released(t: nat)
    | Write(t: nat, id: Id)
    | Written(t: nat)
    | Flags(id: Id, dirty: bool, locked: bool, uptodate: bool)
    | Shrink(page: nat)

  /** When a step can happen.  Taking a buffer over is left to lists of at least two: see BufferLists.FreeList.Remove.
      */
  ghost predicate Enabled(c: Cache, op: Op) {
    match op
    case Begin(t, tag) => t < |c.tasks| && c.tasks[t].pc == Idle && tag.Tag? && tag.dev in c.sizes
    case Lookup(t) => t < |c.tasks| && c.tasks[t].pc.Asking?
    case Found(t) => t < |c.tasks| && c.tasks[t].pc.HashWait? && c.tasks[t].pc.h.id in c.bufs
      && !c.bufs[c.tasks[t].pc.h.id].locked
    case Grow(ids, _, _) =>
      (forall i, j :: 0 <= i < j < |ids| ==> ids[i] != ids[j]) && forall id :: id in ids ==>
        id !in c.bufs && AllRefs(c.tasks, id) == 0
    case Scan(t, id) =>
      && t < |c.tasks| && c.tasks[t].pc.Missing? && id in c.bufs && c.bufs[id].count == 0
      && c.tasks[t].pc.tag.Tag? && c.tasks[t].pc.tag.dev in c.sizes && c.bufs[id].size == c.sizes[c.tasks[t].pc.tag.dev]
      && |c.ring| >= 2
    case NoVictim(t) => t < |c.tasks| && c.tasks[t].pc.Missing?
    case Woken(t) => t < |c.tasks| && c.tasks[t].pc.VictimWait? && c.tasks[t].pc.id in c.bufs
      && !c.bufs[c.tasks[t].pc.id].locked && |c.ring| >= 2
    case Release(t, k) => t < |c.tasks| && c.tasks[t].pc == Idle && k < |c.tasks[t].held|
    case Released(t) => t < |c.tasks| && c.tasks[t].pc.RelseWait? && c.tasks[t].pc.id in c.bufs
      && !c.bufs[c.tasks[t].pc.id].locked
    case Write(t, id) => t < |c.tasks| && c.tasks[t].pc == Idle && id in c.bufs
    case Written(t) => t < |c.tasks| && c.tasks[t].pc.Writing?
    case Flags(id, _, _, _) => id in c.bufs
    case Shrink(page) =>
      && (exists id :: id in c.bufs && c.bufs[id].page != page)
      && (forall id :: id in c.bufs && c.bufs[id].page == page ==>
        c.bufs[id].count == 0 && !c.bufs[id].dirty && !c.bufs[id].locked)
  }

  /** A look-up has ended well: the caller gets the buffer (fs/buffer.c:451-456).  A clean buffer goes to the
      end of the list. */
  function Give(c: Cache, t: nat, h: Handle): Cache
    requires t < |c.tasks| && h.id in c.bufs
  {
    var b := c.bufs[h.id];
    var c1 := if b.uptodate && !b.dirty then c.(ring := ToEnd(c.ring, h.id)) else c;
    Set(c1, t, c.tasks[t].(pc := Idle, held := c.tasks[t].held + [h]))
  }

  /** get_hash_table (fs/buffer.c:377-390) up to its sleep. */
  ghost function LookUp(c: Cache, t: nat): Cache
    requires t < |c.tasks| && c.tasks[t].pc.Asking?
  {
    var tag := c.tasks[t].pc.tag;
    if !Cached(c, tag) then Set(c, t, c.tasks[t].(pc := Missing(tag)))
    else
      var id := Find(c, tag);
      if c.bufs[id].locked then Set(Counted(c, id, 2), t, c.tasks[t].(pc := HashWait(Handle(id, tag))))
      else Give(Counted(c, id, 1), t, Handle(id, tag))
  }

  /** ... and from there: the buffer is looked at again. */
  function WakeFound(c: Cache, t: nat): Cache
    requires t < |c.tasks| && c.tasks[t].pc.HashWait? && c.tasks[t].pc.h.id in c.bufs
      && c.bufs[c.tasks[t].pc.h.id].count >= 2
  {
    var h := c.tasks[t].pc.h;
    if c.bufs[h.id].tag == h.tag then Give(Counted(c, h.id, -1), t, h)
    else Set(Counted(c, h.id, -2), t, c.tasks[t].(pc := Asking(h.tag)))
  }

  /** The end of getblk (fs/buffer.c:495-515): take the buffer over, unless something has changed. */
  ghost function Claim(c: Cache, t: nat, tag: Tag, id: Id): Cache
    requires t < |c.tasks| && id in c.bufs && tag.Tag? && tag.dev in c.sizes
  {
    var b := c.bufs[id];
    if b.count > 0 || b.size != c.sizes[tag.dev] || b.dirty || Cached(c, tag) then
      Set(c, t, c.tasks[t].(pc := Asking(tag)))
    else
      var c1 := c.(bufs := c.bufs[id := b.(tag := tag, count := 1, dirty := false, uptodate := false)],
        ring := ToEnd(c.ring, id));
      Set(c1, t, c.tasks[t].(pc := Idle, held := c.tasks[t].held + [Handle(id, tag)]))
  }

  ghost function ScanFor(c: Cache, t: nat, id: Id): Cache
    requires t < |c.tasks| && c.tasks[t].pc.Missing? && id in c.bufs && c.tasks[t].pc.tag.Tag?
      && c.tasks[t].pc.tag.dev in c.sizes
  {
    var tag := c.tasks[t].pc.tag;
    if c.bufs[id].locked then Set(Counted(c, id, 1), t, c.tasks[t].(pc := VictimWait(tag, id)))
    else Claim(c, t, tag, id)
  }

  ghost function WakeVictim(c: Cache, t: nat): Cache
    requires t < |c.tasks| && c.tasks[t].pc.VictimWait? && c.tasks[t].pc.id in c.bufs
      && c.bufs[c.tasks[t].pc.id].count >= 1
    requires c.tasks[t].pc.tag.Tag? && c.tasks[t].pc.tag.dev in c.sizes
  {
    var p := c.tasks[t].pc;
    var c1 := Set(Counted(c, p.id, -1), t, c.tasks[t].(pc := Missing(p.tag)));
    Claim(c1, t, p.tag, p.id)
  }

  /** brelse (fs/buffer.c:518-530). */
  function Relse(c: Cache, t: nat, k: nat): Cache
    requires t < |c.tasks| && k < |c.tasks[t].held| && c.tasks[t].held[k].id in c.bufs
      && c.bufs[c.tasks[t].held[k].id].count >= 1
  {
    var id := c.tasks[t].held[k].id;
    if c.bufs[id].locked then Set(Counted(c, id, 1), t, c.tasks[t].(pc := RelseWait(k, id)))
    else Set(Counted(c, id, -1), t, c.tasks[t].(held := Without(c.tasks[t].held, k)))
  }

  function WakeRelse(c: Cache, t: nat): Cache
    requires t < |c.tasks| && c.tasks[t].pc.RelseWait? && c.tasks[t].pc.id in c.bufs
      && c.bufs[c.tasks[t].pc.id].count >= 2
    requires c.tasks[t].pc.k < |c.tasks[t].held|
  {
    var p := c.tasks[t].pc;
    Set(Counted(c, p.id, -2), t, Task(Idle, Without(c.tasks[t].held, p.k)))
  }

  /** grow_buffers (fs/buffer.c:870-907): each new buffer becomes the head of the list. */
  function GrowBy(c: Cache, ids: seq<Id>, page: nat, size: nat): Cache
    decreases |ids|
  {
    if ids == [] then c
    else
      var c1 := c.(bufs := c.bufs[ids[0] := Buf(NoTag, size, 0, false, false, false, page)], ring := [ids[0]] + c.ring,
        n := c.n + 1);
      GrowBy(c1, ids[1..], page, size)
  }

  /** try_to_free (fs/buffer.c:913-942): all the buffers of a page go. */
  function KeepOff(c: Cache, ring: seq<Id>, page: nat): seq<Id> {
    if ring == [] then []
    else (if ring[0] in c.bufs && c.bufs[ring[0]].page == page then [] else [ring[0]]) + KeepOff(c, ring[1..], page)
  }

  function ShrinkBy(c: Cache, page: nat): Cache {
    var ring := KeepOff(c, c.ring, page);
    c.(bufs := map id | id in c.bufs && c.bufs[id].page != page ::
      c.bufs[id], ring := ring, n := c.n - (|c.ring| - |ring|))
  }
}
