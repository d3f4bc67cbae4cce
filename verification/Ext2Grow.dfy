/** One step of ext2_getblk at a time (fs/ext2/inode.c:477-673): following the path to a block and filling
    the holes on the way. */
module Ext2Grow {
  import opened Ext2Tree
  import opened Ext2Blocks

  datatype Errno = EIo | ENoSpc | EFBig

  /** `Beyond`: the code reads, and may write, past the end of an indirect block. */
  datatype Got = Block(b: nat) | Failed(err: Errno) | Beyond

  /** A request for a block of the file; `limit` is the file size limit in blocks. */
  datatype Ask = Ask(block: int, create: bool, limit: int, suser: bool)

  /** The pointers to fill on the way to q. */
  ghost function Holes(fs: Fs, q: Path): nat {
    if q == [] then 0 else Holes(fs, q[..|q| - 1]) + if Ptr(fs, q) == 0 then 1 else 0
  }

  /** The walk has come to a position with so many holes on the way, where `room` blocks could be had. */
  ghost predicate Paid(holes: nat, room: nat, left: nat, r: Got) {
    && (r.Block? ==> holes <= room && left == room - holes)
    && (r == Failed(ENoSpc) ==> holes > room)
  }

  lemma HolesMore(fs: Fs, p: Path, i: nat)
    ensures Holes(fs, p + [i]) == Holes(fs, p) + if Ptr(fs, p + [i]) == 0 then 1 else 0
  {
    hide Ptr;
    assert (p + [i])[..|p|] == p;
  }

  lemma HolesOne(fs: Fs, i: nat)
    ensures Holes(fs, [i]) == if Ptr(fs, [i]) == 0 then 1 else 0
  {
    hide Ptr;
    assert [i][..0] == [];
  }

  /** The pointer at q, whose parent is there, has been looked up, or filled if it was a hole. */
  ghost predicate Filled(fs: Fs, fs': Fs, q: Path, ask: Ask, r: Got)
    requires Inv(fs) && PathOK(fs, q) && (|q| > 1 ==> Ptr(fs, Parent(q)) != 0)
  {
    if Ptr(fs, q) != 0 then r == Block(Ptr(fs, q)) && fs' == fs
    else if !ask.create || ask.block >= ask.limit then r == Failed(EFBig) && fs' == fs
    else (r == Failed(ENoSpc) && fs' == fs) || (r.Block? && r.b != 0 && r.b !in fs.used && fs' == Grow(fs, q, r.b))
  }

  ghost predicate KeptOrFilled(fs: Fs, fs': Fs, q: Path, p: Path) {
    Ptr(fs', p) == Ptr(fs, p) || (Ptr(fs, p) == 0 && p <= q)
  }

  /** Blocks were only added, all of them to the tree. */
  ghost predicate OnlyGrew(fs: Fs, fs': Fs) {
    && fs'.a == fs.a && fs'.units == fs.units && |fs'.data| == |fs.data|
    && fs.used <= fs'.used && Reach(fs) <= Reach(fs') && fs'.used - fs.used == Reach(fs') - Reach(fs)
  }

  /** The walk has come to position q. */
  ghost predicate Reached(fs0: Fs, fs: Fs, q: Path, ask: Ask, r: Got) {
    && Inv(fs) && OnlyGrew(fs0, fs)
    && (forall p {:trigger KeptOrFilled(fs0, fs, q, p)} :: PathOK(fs0, p) ==> KeptOrFilled(fs0, fs, q, p))
    && (Ptr(fs0, q) != 0 ==> fs == fs0 && r == Block(Ptr(fs0, q)))
    && !r.Beyond? && (r.Block? ==> Ptr(fs, q) == r.b != 0)
    && (r.Block? && Ptr(fs0, q) == 0 ==>
          ask.create && ask.block < ask.limit && r.b !in fs0.used && r.b in fs.disk && fs.disk[r.b] == Zeros(fs.a))
    && (r.Failed? ==>
          Ptr(fs0, q) == 0 && Ptr(fs, q) == 0 && r.err != EIo
          && (r.err == EFBig <==> !ask.create || ask.block >= ask.limit))
    && (r.Failed? && r.err == EFBig ==> fs == fs0)
  }

  lemma ReachedFacts(fs0: Fs, fs: Fs, q: Path, ask: Ask, r: Got)
    requires Reached(fs0, fs, q, ask, r)
    ensures Inv(fs) && fs.a == fs0.a && !r.Beyond? && (r.Block? ==> r.b == Ptr(fs, q) != 0)
    ensures r == Failed(ENoSpc) ==> Ptr(fs0, q) == 0
    ensures forall p :: PathOK(fs0, p) <==> PathOK(fs, p)
  {
    hide Inv, Ptr;
  }

  lemma GrewNothing(fs: Fs)
    ensures OnlyGrew(fs, fs)
  {
    hide Reach;
    assert fs.used - fs.used == Reach(fs) - Reach(fs);
  }

  /** A new block at the end of the walk. */
  lemma {:induction false} GrowReached(fs0: Fs, fs1: Fs, q: Path, b: nat)
    requires Inv(fs1) && OnlyGrew(fs0, fs1) && PathOK(fs1, q) && (|q| > 1 ==> Ptr(fs1, Parent(q)) != 0)
    requires Ptr(fs1, q) == 0 && b != 0 && b !in fs1.used
    requires forall p {:trigger KeptOrFilled(fs0, fs1, q, p)} :: PathOK(fs0, p) ==> KeptOrFilled(fs0, fs1, q, p)
    ensures var fs2 := Grow(fs1, q, b);
      && Inv(fs2) && OnlyGrew(fs0, fs2) && Ptr(fs2, q) == b
      && b in fs2.disk && fs2.disk[b] == Zeros(fs2.a)
      && forall p {:trigger KeptOrFilled(fs0, fs2, q, p)} :: PathOK(fs0, p) ==> KeptOrFilled(fs0, fs2, q, p)
  {
    hide Ptr, Reach, Inv;
    var fs2 := Grow(fs1, q, b);
    GrowOK(fs1, q, b);
    GrowZeroed(fs1, q, b);
    hide Grow;
    forall p | PathOK(fs0, p) ensures KeptOrFilled(fs0, fs2, q, p) {
      assert PathOK(fs1, p);
      assert KeptOrFilled(fs0, fs1, q, p);
      if p != q { assert Ptr(fs2, p) == Ptr(fs1, p); }
    }
    ReachInUsed(fs0);
    GrewMore(fs0.used, fs1.used, fs2.used, Reach(fs0), Reach(fs1), Reach(fs2), b);
  }

  lemma GrewMore(u0: set<nat>, u1: set<nat>, u2: set<nat>, r0: set<nat>, r1: set<nat>, r2: set<nat>, b: nat)
    requires u0 <= u1 && r0 <= r1 && r0 <= u0 && u1 - u0 == r1 - r0 && u2 == u1 + {b} && r2 == r1 + {b} && b !in u1
    ensures u0 <= u2 && r0 <= r2 && u2 - u0 == r2 - r0
  {
    assert u2 - u0 == (u1 - u0) + {b};
  }

  lemma ReachInUsed(fs: Fs)
    ensures Reach(fs) <= fs.used
  {
    hide Ptr;
  }

  lemma GrowZeroed(fs: Fs, q: Path, b: nat)
    requires Inv(fs) && PathOK(fs, q) && (|q| > 1 ==> Ptr(fs, Parent(q)) != 0)
    ensures b in Grow(fs, q, b).disk && Grow(fs, q, b).disk[b] == Zeros(fs.a)
  {
    hide Ptr, Reach;
  }

  lemma {:induction false} FirstStep(fs0: Fs, fs: Fs, nr: nat, ask: Ask, r: Got)
    requires Inv(fs0) && nr < NSLOTS && Filled(fs0, fs, [nr], ask, r)
    ensures Reached(fs0, fs, [nr], ask, r)
  {
    hide Ptr, Reach, Inv, Grow, OnlyGrew;
    GrewNothing(fs0);
    forall p | PathOK(fs0, p) ensures KeptOrFilled(fs0, fs0, [nr], p) { }
    if r.Block? && Ptr(fs0, [nr]) == 0 { GrowReached(fs0, fs0, [nr], r.b); }
  }

  lemma {:induction false} NextStep(fs0: Fs, fs1: Fs, fs2: Fs, p: Path, i: nat, ask: Ask, r1: Got, r2: Got)
    requires Reached(fs0, fs1, p, ask, r1) && p != [] && PathOK(fs0, p + [i]) && PathOK(fs1, p + [i])
    requires !r1.Block? ==> r2 == r1 && fs2 == fs1
    requires r1.Block? ==> Parent(p + [i]) == p && Filled(fs1, fs2, p + [i], ask, r2)
    ensures Reached(fs0, fs2, p + [i], ask, r2)
  {
    hide Reach, Inv, Grow, OnlyGrew;
    var q := p + [i];
    PtrMore(fs0, p, i);
    PtrMore(fs1, p, i);
    hide Ptr;
    forall x | PathOK(fs0, x) ensures KeptOrFilled(fs0, fs1, q, x) {
      assert KeptOrFilled(fs0, fs1, p, x);
      if x <= p { assert x <= q; }
    }
    if r1.Block? {
      StillHole(fs0, fs1, p, q);
      if r2.Block? && Ptr(fs1, q) == 0 {
        GrowReached(fs0, fs1, q, r2.b);
        assert r2.b !in fs0.used by { UsedGrew(fs0, fs1, r2.b); }
      }
    }
  }

  lemma UsedGrew(fs0: Fs, fs1: Fs, b: nat)
    requires OnlyGrew(fs0, fs1) && b !in fs1.used
    ensures b !in fs0.used
  {
  }

  /** Filling the way to p does not touch what lies below p. */
  lemma StillHole(fs0: Fs, fs1: Fs, p: Path, q: Path)
    requires |p| < |q| && PathOK(fs0, q)
    requires forall x {:trigger KeptOrFilled(fs0, fs1, p, x)} :: PathOK(fs0, x) ==> KeptOrFilled(fs0, fs1, p, x)
    ensures Ptr(fs1, q) == Ptr(fs0, q)
  {
    hide Ptr;
    assert KeptOrFilled(fs0, fs1, p, q);
  }

  lemma OutOfRange(fs: Fs, block: int)
    requires Inv(fs) && (block < 0 || block >= Limit(fs.a))
    ensures Bmap(fs, block) == 0 && OnlyGrew(fs, fs)
  {
    GrewNothing(fs);
  }

  /** A data block's position is not on the way to another one's. */
  lemma {:induction false} NotOnTheWay(fs: Fs, block: nat, other: nat)
    requires fs.a > 0 && block < Limit(fs.a) && other < Limit(fs.a) && block != other
    ensures !(PathOf(fs.a, other) <= PathOf(fs.a, block))
  {
    hide Ptr, PathOf, Limit;
    var q, p := PathOf(fs.a, block), PathOf(fs.a, other);
    PathOfOK(fs, block);
    PathOfOK(fs, other);
    if p <= q {
      assert p[0] == q[0] && |p| == |q|;
      PathsDiffer(fs.a, block, other);
    }
  }

  /** The walk to a data block has ended. */
  lemma {:induction false} GotBlock(fs0: Fs, fs: Fs, ask: Ask, r: Got)
    requires Inv(fs0) && fs0.a > 0 && 0 <= ask.block < Limit(fs0.a)
      && Reached(fs0, fs, PathOf(fs0.a, ask.block), ask, r)
    ensures Inv(fs) && OnlyGrew(fs0, fs) && !r.Beyond?
    ensures r.Block? ==> Bmap(fs, ask.block) == r.b != 0 && r.b in fs.used
    ensures r.Failed? ==> Bmap(fs0, ask.block) == 0 && Bmap(fs, ask.block) == 0 && r.err != EIo && fs.a == fs0.a
    ensures r == Failed(EFBig) <==> Bmap(fs0, ask.block) == 0 && (!ask.create || ask.block >= ask.limit)
    ensures r == Failed(EFBig) ==> fs == fs0
    ensures Bmap(fs0, ask.block) != 0 ==> r == Block(Bmap(fs0, ask.block)) && fs == fs0
    ensures r.Block? && Bmap(fs0, ask.block) == 0 ==>
      ask.create && ask.block < ask.limit && r.b !in fs0.used && r.b in fs.disk && fs.disk[r.b] == Zeros(fs.a)
    ensures forall block: int :: block != ask.block ==> Bmap(fs, block) == Bmap(fs0, block)
  {
    hide Ptr, Reach, Inv, Bmap, PathOf, OnlyGrew;
    var q := PathOf(fs0.a, ask.block);
    assert |fs0.data| == |fs.data| == NSLOTS && fs.a == fs0.a > 0 by { Shapes(fs0, fs); }
    PathOfOK(fs0, ask.block);
    BmapIsPtr(fs0, ask.block);
    BmapIsPtr(fs, ask.block);
    assert NodeOK(fs, q) by { TreeNode(fs, q); }
    forall block: int | block != ask.block
      ensures Bmap(fs, block) == Bmap(fs0, block)
    {
      if 0 <= block < Limit(fs0.a) {
        hide Limit;
        BmapIsPtr(fs0, block);
        BmapIsPtr(fs, block);
        PathOfOK(fs0, block);
        NotOnTheWay(fs0, ask.block, block);
        assert KeptOrFilled(fs0, fs, q, PathOf(fs0.a, block));
      } else {
        OutOfRange(fs0, block);
        OutOfRange(fs, block);
      }
    }
  }

  /** A triple indirect block at the most maps no data block. */
  lemma {:induction false} GotTriple(fs0: Fs, fs: Fs, ask: Ask, r: Got)
    requires Inv(fs0) && Reached(fs0, fs, [TIND], ask, r)
    ensures Inv(fs) && OnlyGrew(fs0, fs) && fs.a == fs0.a > 0
    ensures r.Block? || r == Failed(EFBig) || r == Failed(ENoSpc)
    ensures r.Block? <==> Ptr(fs, [TIND]) != 0
    ensures r == Failed(EFBig) <==> Ptr(fs0, [TIND]) == 0 && (!ask.create || ask.block >= ask.limit)
    ensures r == Failed(EFBig) || Ptr(fs0, [TIND]) != 0 ==> fs == fs0
    ensures forall block: int :: Bmap(fs, block) == Bmap(fs0, block)
  {
    hide Ptr, Reach, Inv, Bmap, PathOf, OnlyGrew;
    Shapes(fs0, fs);
    forall block: int
      ensures Bmap(fs, block) == Bmap(fs0, block)
    {
      if 0 <= block < Limit(fs0.a) {
        hide Limit;
        BmapIsPtr(fs0, block);
        BmapIsPtr(fs, block);
        PathOfOK(fs0, block);
        assert KeptOrFilled(fs0, fs, [TIND], PathOf(fs0.a, block));
        LeafNotTriple(fs0, PathOf(fs0.a, block));
      } else {
        OutOfRange(fs0, block);
        OutOfRange(fs, block);
      }
    }
  }

  lemma LeafNotTriple(fs: Fs, p: Path)
    requires PathOK(fs, p) && IsLeaf(p)
    ensures !(p <= [TIND])
  {

  }

  lemma Shapes(fs0: Fs, fs: Fs)
    requires Inv(fs0) && OnlyGrew(fs0, fs)
    ensures |fs0.data| == |fs.data| == NSLOTS && fs.a == fs0.a > 0
  {
  }

  lemma TreeNode(fs: Fs, p: Path)
    requires Inv(fs) && PathOK(fs, p)
    ensures NodeOK(fs, p)
  {
  }
}
