/** The circular list and the hash queues of buffer heads (fs/buffer.c:276-368): doubly linked lists that are
    changed in place. */
module BufferLists {

  class Head {
    var nextFree: Head?
    var prevFree: Head?
    var next: Head?
    var prev: Head?
    var dev: nat
    var block: nat
    var size: nat

    constructor (dev: nat, block: nat, size: nat)
      ensures this.dev == dev && this.block == block && this.size == size
      ensures nextFree == null && prevFree == null && next == null && prev == null
    {
      this.dev, this.block, this.size := dev, block, size;
      nextFree, prevFree, next, prev := null, null, null, null;
    }
  }

  // ---- the circular list ----

  function Succ(i: nat, n: nat): nat { if i + 1 == n then 0 else i + 1 }
  function Pred(i: nat, n: nat): nat { if i > 0 then i - 1 else if n > 0 then n - 1 else 0 }

  ghost predicate Distinct(r: seq<Head>) {
    forall i, j {:trigger r[i], r[j]} :: 0 <= i < j < |r| ==> r[i] != r[j]
  }

  /** Head i of the circle r has these links. */
  ghost predicate LinksAt(r: seq<Head>, nx: seq<Head?>, pv: seq<Head?>, i: nat)
    requires i < |r| == |nx| == |pv|
  {
    nx[i] == r[Succ(i, |r|)] && pv[i] == r[Pred(i, |r|)]
  }

  ghost predicate Linked(r: seq<Head>, nx: seq<Head?>, pv: seq<Head?>) {
    |r| == |nx| == |pv| && Distinct(r) && forall i {:trigger LinksAt(r, nx, pv, i)} :: 0 <= i < |r| ==>
      LinksAt(r, nx, pv, i)
  }

  ghost function Nexts(r: seq<Head>): (s: seq<Head?>)
    reads r
    ensures |s| == |r| && forall i :: 0 <= i < |r| ==> s[i] == r[i].nextFree
  {
    seq(|r|, i requires 0 <= i < |r| reads r => r[i].nextFree)
  }

  ghost function Prevs(r: seq<Head>): (s: seq<Head?>)
    reads r
    ensures |s| == |r| && forall i :: 0 <= i < |r| ==> s[i] == r[i].prevFree
  {
    seq(|r|, i requires 0 <= i < |r| reads r => r[i].prevFree)
  }

  /** The heads are linked in a circle, in this order. */
  ghost predicate IsRing(r: seq<Head>)
    reads r
  {
    Linked(r, Nexts(r), Prevs(r))
  }

  ghost function Without<T>(r: seq<T>, k: nat): (q: seq<T>)
    requires k < |r|
    ensures |q| == |r| - 1 && forall i {:trigger q[i]} :: 0 <= i < |q| ==> q[i] == r[if i < k then i else i + 1]
  {
    r[..k] + r[k + 1..]
  }

  /** Unhooking head k. */
  lemma Unhooked(r: seq<Head>, nx: seq<Head?>, pv: seq<Head?>, k: nat)
    requires Linked(r, nx, pv) && k < |r| && |r| >= 2
    ensures Linked(Without(r, k), Without(nx[Pred(k, |r|) := nx[k]], k), Without(pv[Succ(k, |r|) := pv[k]], k))
  {
    var p, s := Pred(k, |r|), Succ(k, |r|);
    var q, nx', pv' := Without(r, k), Without(nx[p := nx[k]], k), Without(pv[s := pv[k]], k);
    assert LinksAt(r, nx, pv, k);
    forall i | 0 <= i < |q|
      ensures LinksAt(q, nx', pv', i)
    {
      var j := if i < k then i else i + 1;
      assert LinksAt(r, nx, pv, j);
      assert q[Succ(i, |q|)] == r[if j == p then s else Succ(j, |r|)];
      assert q[Pred(i, |q|)] == r[if j == s then p else Pred(j, |r|)];
    }
  }

  /** Hooking a head in between the last one and the first one. */
  lemma Hooked(r: seq<Head>, nx: seq<Head?>, pv: seq<Head?>, bh: Head)
    requires Linked(r, nx, pv) && r != [] && bh !in r
    ensures var n := |r|;
            && Linked(r + [bh], nx[n - 1 := bh] + [r[0]], pv[0 := bh] + [r[n - 1]])
            && Linked([bh] + r, [r[0]] + nx[n - 1 := bh], [r[n - 1]] + pv[0 := bh])
  {
    var n := |r|;
    var q, nx', pv' := r + [bh], nx[n - 1 := bh] + [r[0]], pv[0 := bh] + [r[n - 1]];
    forall i | 0 <= i < |q| ensures LinksAt(q, nx', pv', i) { if i < n { assert LinksAt(r, nx, pv, i); } }
    var q2, nx2, pv2 := [bh] + r, [r[0]] + nx[n - 1 := bh], [r[n - 1]] + pv[0 := bh];
    forall i | 0 <= i < |q2| ensures LinksAt(q2, nx2, pv2, i) { if i > 0 { assert LinksAt(r, nx, pv, i - 1); } }
  }

  /** The circle seen from its second head. */
  lemma Turned(r: seq<Head>, nx: seq<Head?>, pv: seq<Head?>)
    requires Linked(r, nx, pv) && r != []
    ensures Linked(r[1..] + [r[0]], nx[1..] + [nx[0]], pv[1..] + [pv[0]])
  {
    var q, nx', pv' := r[1..] + [r[0]], nx[1..] + [nx[0]], pv[1..] + [pv[0]];
    forall i | 0 <= i < |q|
      ensures LinksAt(q, nx', pv', i)
    {
      assert LinksAt(r, nx, pv, if i + 1 < |r| then i + 1 else 0);
    }
  }

  class FreeList {
    var head: Head?
    ghost var ring: seq<Head>

    ghost predicate Valid()
      reads this, ring
    {
      IsRing(ring) && (head == null <==> ring == []) && (head != null ==> ring[0] == head)
    }

    constructor ()
      ensures Valid() && ring == []
    {
      head, ring := null, [];
    }

    /** remove_from_free_list (fs/buffer.c:290-299).  The list is one again exactly if another head was on it: after
        the last one has gone, the list goes on pointing to it. */
    method Remove(bh: Head, ghost k: nat)
      requires Valid() && k < |ring| && ring[k] == bh
      modifies this, ring`nextFree, ring`prevFree
      ensures ring == Without(old(ring), k) && bh.nextFree == null && bh.prevFree == null
      ensures Valid() <==> |old(ring)| >= 2
      ensures |old(ring)| == 1 ==> head == bh
    {
      hide Distinct, Linked, Without;
      ghost var r, nx, pv := ring, Nexts(ring), Prevs(ring);
      LinkedAt(r, nx, pv, k);
      var p, n := bh.prevFree, bh.nextFree;
      if |r| >= 2 {
        Unhooked(r, nx, pv, k);
        DistinctAt(r, Pred(k, |r|), k);
        DistinctAt(r, Succ(k, |r|), k);
        DistinctAt(r, 0, k);
      }
      p.nextFree := n;
      n.prevFree := p;
      if head == bh {
        head := n;
      }
      bh.nextFree, bh.prevFree := null, null;
      ring := Without(r, k);
      if |r| >= 2 {
        forall i | 0 <= i < |ring|
          ensures ring[i].nextFree == Without(nx[Pred(k, |r|) := nx[k]], k)[i]
          ensures ring[i].prevFree == Without(pv[Succ(k, |r|) := pv[k]], k)[i]
        {
          var j := if i < k then i else i + 1;
          DistinctAt(r, j, k);
          DistinctAt(r, j, Pred(k, |r|));
          DistinctAt(r, j, Succ(k, |r|));
        }
        assert Nexts(ring) == Without(nx[Pred(k, |r|) := nx[k]], k);
        assert Prevs(ring) == Without(pv[Succ(k, |r|) := pv[k]], k);
      }
    }

    /** Link a head in before the first one. */
    method Splice(bh: Head)
      requires Valid() && bh !in ring && ring != []
      modifies ring`nextFree, ring`prevFree, bh`nextFree, bh`prevFree
      ensures bh.nextFree == ring[0] && bh.prevFree == ring[|ring| - 1]
      ensures Nexts(ring) == old(Nexts(ring))[|ring| - 1 := bh] && Prevs(ring) == old(Prevs(ring))[0 := bh]
    {
      hide Linked, Distinct;
      ghost var r, n := ring, |ring|;
      LinkedAt(r, Nexts(r), Prevs(r), 0);
      forall i | 0 <= i < n
        ensures (r[i] == r[n - 1] <==> i == n - 1) && (r[i] == r[0] <==> i == 0)
      {
        DistinctAt(r, i, n - 1);
        DistinctAt(r, i, 0);
      }
      bh.nextFree := head;
      bh.prevFree := head.prevFree;
      head.prevFree.nextFree := bh;
      head.prevFree := bh;
    }

    /** Hook a head in before the first one, that is, at the end (fs/buffer.c:330-333, 339-342) or, if the list
        then starts with it, at the front (fs/buffer.c:313-317, 888-897). */
    method Hook(bh: Head, front: bool)
      requires Valid() && bh !in ring && (ring == [] ==> front)
      modifies this, ring`nextFree, ring`prevFree, bh`nextFree, bh`prevFree
      ensures Valid() && ring == if front then [bh] + old(ring) else old(ring) + [bh]
    {
      hide Linked, Distinct;
      assert IsRing(ring);
      ghost var r, nx, pv := ring, Nexts(ring), Prevs(ring);
      if head == null {
        bh.prevFree, bh.nextFree := bh, bh;
        head, ring := bh, [bh];
        assert Nexts(ring) == [bh] && Prevs(ring) == [bh];
        Alone(bh, Nexts(ring), Prevs(ring));
        return;
      }
      Splice(bh);
      HookedRing(r, nx, pv, bh);
      if front {
        head := bh;
        ring := [bh] + r;
      } else {
        ring := r + [bh];
      }
    }

    /** The list starts with its second head. */
    method Turn()
      requires Valid() && ring != []
      modifies this
      ensures Valid() && ring == old(ring)[1..] + [old(ring)[0]]
    {
      hide Linked, Distinct;
      LinkedAt(ring, Nexts(ring), Prevs(ring), 0);
      Turned(ring, Nexts(ring), Prevs(ring));
      ghost var r := ring;
      head := head.nextFree;
      ring := r[1..] + [r[0]];
      Joined(r[1..], [r[0]]);
      Pieces(r);
    }

    /** put_last_free (fs/buffer.c:320-334). */
    method PutLast(bh: Head, ghost k: nat)
      requires Valid() && k < |ring| && ring[k] == bh
      modifies this, ring`nextFree, ring`prevFree
      ensures Valid() && ring == Without(old(ring), k) + [bh]
    {
      hide Linked, Distinct, IsRing;
      ghost var r := ring;
      RingDistinct(r, 0, k);
      if bh == head {
        Turn();
        assert Without(r, 0) == r[1..];
        return;
      }
      Remove(bh, k);
      GoneFrom(r, k);
      Hook(bh, false);
    }

    /** put_first_free (fs/buffer.c:307-318). */
    method PutFirst(bh: Head, ghost k: nat)
      requires Valid() && k < |ring| && ring[k] == bh
      modifies this, ring`nextFree, ring`prevFree
      ensures Valid() && ring == [bh] + Without(old(ring), k)
    {
      hide Linked, Distinct, IsRing;
      ghost var r := ring;
      RingDistinct(r, 0, k);
      if bh == head {
        assert [bh] + Without(r, 0) == r;
        return;
      }
      Remove(bh, k);
      GoneFrom(r, k);
      Hook(bh, true);
    }
  }

  lemma LinkedAt(r: seq<Head>, nx: seq<Head?>, pv: seq<Head?>, i: nat)
    requires Linked(r, nx, pv) && i < |r|
    ensures LinksAt(r, nx, pv, i) && Distinct(r)
  {
  }

  lemma HookedRing(r: seq<Head>, nx: seq<Head?>, pv: seq<Head?>, bh: Head)
    requires Linked(r, nx, pv) && r != [] && bh !in r
    requires Nexts(r) == nx[|r| - 1 := bh] && Prevs(r) == pv[0 := bh] && bh.nextFree == r[0]
      && bh.prevFree == r[|r| - 1]
    ensures IsRing(r + [bh]) && IsRing([bh] + r)
  {
    hide Linked, Distinct;
    Hooked(r, nx, pv, bh);
    assert Nexts([bh]) == [r[0]] && Prevs([bh]) == [r[|r| - 1]];
    Joined([bh], r);
    Joined(r, [bh]);
  }

  lemma Joined(a: seq<Head>, b: seq<Head>)
    ensures Nexts(a + b) == Nexts(a) + Nexts(b) && Prevs(a + b) == Prevs(a) + Prevs(b)
  {
  }

  lemma Pieces(r: seq<Head>)
    requires r != []
    ensures Nexts(r[1..]) == Nexts(r)[1..] && Nexts([r[0]]) == [Nexts(r)[0]]
    ensures Prevs(r[1..]) == Prevs(r)[1..] && Prevs([r[0]]) == [Prevs(r)[0]]
  {
  }

  lemma RingDistinct(r: seq<Head>, i: nat, j: nat)
    requires IsRing(r) && i < |r| && j < |r|
    ensures (r[i] == r[j] <==> i == j) && Distinct(r)
  {
    DistinctAt(r, i, j);
  }

  lemma Alone(bh: Head, nx: seq<Head?>, pv: seq<Head?>)
    requires nx == [bh] && pv == [bh]
    ensures Linked([bh], nx, pv)
  {
  }

  lemma GoneFrom(r: seq<Head>, k: nat)
    requires Distinct(r) && k < |r|
    ensures r[k] !in Without(r, k)
  {
    var q := Without(r, k);
    forall i | 0 <= i < |q|
      ensures q[i] != r[k]
    {
      DistinctAt(r, if i < k then i else i + 1, k);
    }
  }

  lemma DistinctAt(r: seq<Head>, i: nat, j: nat)
    requires Distinct(r) && i < |r| && j < |r|
    ensures r[i] == r[j] <==> i == j
  {
    if i < j { assert r[i] != r[j]; }
    if j < i { assert r[j] != r[i]; }
  }

  // ---- a hash queue ----

  function At(c: seq<Head>, i: int): Head? {
    if 0 <= i < |c| then c[i] else null
  }

  /** Head i of the queue c has these links; the ends have none. */
  ghost predicate QueueAt(c: seq<Head>, nx: seq<Head?>, pv: seq<Head?>, i: nat)
    requires i < |c| == |nx| == |pv|
  {
    nx[i] == At(c, i + 1) && pv[i] == At(c, i - 1)
  }

  ghost predicate Queued(c: seq<Head>, nx: seq<Head?>, pv: seq<Head?>) {
    |c| == |nx| == |pv| && Distinct(c) && forall i {:trigger QueueAt(c, nx, pv, i)} :: 0 <= i < |c| ==>
      QueueAt(c, nx, pv, i)
  }

  ghost function NextsIn(c: seq<Head>): (s: seq<Head?>)
    reads c
    ensures |s| == |c| && forall i :: 0 <= i < |c| ==> s[i] == c[i].next
  {
    seq(|c|, i requires 0 <= i < |c| reads c => c[i].next)
  }

  ghost function PrevsIn(c: seq<Head>): (s: seq<Head?>)
    reads c
    ensures |s| == |c| && forall i :: 0 <= i < |c| ==> s[i] == c[i].prev
  {
    seq(|c|, i requires 0 <= i < |c| reads c => c[i].prev)
  }

  ghost function Put(s: seq<Head?>, i: int, x: Head?): (q: seq<Head?>)
    ensures |q| == |s| && forall j :: 0 <= j < |s| ==> q[j] == if j == i then x else s[j]
  {
    if 0 <= i < |s| then s[i := x] else s
  }

  /** Unhooking head k of a queue. */
  lemma Unqueued(c: seq<Head>, nx: seq<Head?>, pv: seq<Head?>, k: nat)
    requires Queued(c, nx, pv) && k < |c|
    ensures Queued(Without(c, k), Without(Put(nx, k - 1, nx[k]), k), Without(Put(pv, k + 1, pv[k]), k))
  {
    var q, nx', pv' := Without(c, k), Without(Put(nx, k - 1, nx[k]), k), Without(Put(pv, k + 1, pv[k]), k);
    assert QueueAt(c, nx, pv, k);
    forall i | 0 <= i < |q|
      ensures QueueAt(q, nx', pv', i)
    {
      assert QueueAt(c, nx, pv, if i < k then i else i + 1);
    }
  }

  /** Putting a head in front of a queue. */
  lemma Enqueued(c: seq<Head>, nx: seq<Head?>, pv: seq<Head?>, bh: Head)
    requires Queued(c, nx, pv) && bh !in c
    ensures Queued([bh] + c, [At(c, 0)] + nx, [null] + Put(pv, 0, bh))
  {
    var q, nx', pv' := [bh] + c, [At(c, 0)] + nx, [null] + Put(pv, 0, bh);
    forall i | 0 <= i < |q|
      ensures QueueAt(q, nx', pv', i)
    {
      if i > 0 { assert QueueAt(c, nx, pv, i - 1); }
    }
  }

  class Queue {
    var head: Head?
    ghost var chain: seq<Head>

    ghost predicate Valid()
      reads this, chain
    {
      Queued(chain, NextsIn(chain), PrevsIn(chain)) && head == At(chain, 0)
    }

    constructor ()
      ensures Valid() && chain == []
    {
      head, chain := null, [];
    }

    /** remove_from_hash_queue (fs/buffer.c:279-288). */
    method Remove(bh: Head, ghost k: nat)
      requires Valid() && k < |chain| && chain[k] == bh
      modifies this, chain`next, chain`prev
      ensures Valid() && chain == Without(old(chain), k) && bh.next == null && bh.prev == null
    {
      hide Queued, Distinct, Without, Put;
      ghost var c, nx, pv := chain, NextsIn(chain), PrevsIn(chain);
      QueuedAt(c, nx, pv, k);
      Unqueued(c, nx, pv, k);
      forall i | 0 <= i < |c|
        ensures (c[i] == c[k] <==> i == k) && (k + 1 < |c| ==> (c[i] == c[k + 1] <==> i == k + 1))
          && (k > 0 ==> (c[i] == c[k - 1] <==> i == k - 1))
      {
        DistinctAt(c, i, k);
        if k + 1 < |c| { DistinctAt(c, i, k + 1); }
        if k > 0 { DistinctAt(c, i, k - 1); }
      }
      if bh.next != null {
        bh.next.prev := bh.prev;
      }
      if bh.prev != null {
        bh.prev.next := bh.next;
      }
      if head == bh {
        head := bh.next;
      }
      assert forall i :: 0 <= i < |c| && i != k ==>
        c[i].next == Put(nx, k - 1, nx[k])[i] && c[i].prev == Put(pv, k + 1, pv[k])[i];
      bh.next, bh.prev := null, null;
      chain := Without(c, k);
      assert NextsIn(chain) == Without(Put(nx, k - 1, nx[k]), k);
      assert PrevsIn(chain) == Without(Put(pv, k + 1, pv[k]), k);
    }

    /** insert_into_queues, the hash queue's part (fs/buffer.c:343-351). */
    method Insert(bh: Head)
      requires Valid() && bh !in chain
      modifies this, chain`prev, bh`next, bh`prev
      ensures Valid() && chain == [bh] + old(chain)
    {
      hide Queued, Distinct, Put;
      ghost var c, nx, pv := chain, NextsIn(chain), PrevsIn(chain);
      Enqueued(c, nx, pv, bh);
      forall i | 0 <= i < |c| ensures c[i] == c[0] <==> i == 0 { QueueDistinct(c, nx, pv, i, 0); }
      bh.prev := null;
      bh.next := head;
      head := bh;
      if bh.next != null {
        bh.next.prev := bh;
      }
      chain := [bh] + c;
      assert NextsIn(chain) == [At(c, 0)] + nx;
      assert PrevsIn(chain) == [null] + Put(pv, 0, bh);
    }

    /** find_buffer (fs/buffer.c:354-368): the first head for the block, unless its size is another. */
    method Find(dev: nat, block: nat, size: nat) returns (bh: Head?)
      requires Valid()
      ensures bh != null ==> bh in chain && bh.dev == dev && bh.block == block && bh.size == size
      ensures (forall h :: h in chain && h.dev == dev && h.block == block ==> h.size == size) ==>
        (bh != null <==> exists h :: h in chain && h.dev == dev && h.block == block)
    {
      hide Queued;
      bh := head;
      ghost var i := 0;
      while bh != null
        invariant i <= |chain| && bh == At(chain, i)
        invariant forall j :: 0 <= j < i ==> !(chain[j].dev == dev && chain[j].block == block)
        decreases |chain| - i
      {
        if bh.dev == dev && bh.block == block {
          return if bh.size == size then bh else null;
        }
        QueuedAt(chain, NextsIn(chain), PrevsIn(chain), i);
        bh := bh.next;
        i := i + 1;
      }
    }
  }

  lemma QueuedAt(c: seq<Head>, nx: seq<Head?>, pv: seq<Head?>, i: nat)
    requires Queued(c, nx, pv) && i < |c|
    ensures QueueAt(c, nx, pv, i) && Distinct(c)
  {
  }

  lemma QueueDistinct(c: seq<Head>, nx: seq<Head?>, pv: seq<Head?>, i: nat, j: nat)
    requires Queued(c, nx, pv) && i < |c| && j < |c|
    ensures c[i] == c[j] <==> i == j
  {
    DistinctAt(c, i, j);
  }
}
