/** A file's block tree as the kernel changes it: ext2_getblk (fs/ext2/inode.c:477-673) and ext2_truncate
    (fs/ext2/truncate.c:33-274). */
module Ext2File {
  import opened Ext2Tree
  import opened Ext2Blocks
  import opened Ext2Trim
  import opened Ext2Truncate
  import opened Ext2Grow
  import Ext2Alloc

  /** Under the first n slots, no indirect block is left whose blocks are all d or more. */
  ghost predicate SlotGoneAt(fs: Fs, d: nat, n: nat, r: Path)
    requires Inner(fs, r)
  {
    r[0] < n && Base(fs.a, r[0]) + FirstBelow(fs.a, Depth(r[0]), r[1..]) >= d ==> Ptr(fs, r) == 0
  }

  ghost predicate SlotsGone(fs: Fs, d: nat, n: nat) {
    forall r {:trigger Inner(fs, r)} :: Inner(fs, r) ==> SlotGoneAt(fs, d, n, r)
  }

  /** The first n slots of the inode are done. */
  ghost predicate Truncating(fs0: Fs, fs: Fs, d: nat, n: nat) {
    Inv(fs) && Trimmed(fs0, fs) && SlotsCut(fs0, fs, d, n) && SlotsGone(fs, d, n)
  }

  lemma {:induction false} SlotsStart(fs: Fs, d: nat)
    requires Inv(fs)
    ensures Truncating(fs, fs, d, 0)
  {
    hide Ptr, Index, FirstBelow, Base;
    TrimNothing(fs);
    forall r | Leaf(fs, r) ensures SlotCutAt(fs, fs, d, 0, r) { }
  }

  /** Direct blocks before d are left alone. */
  lemma {:induction false} SlotsSkip(fs: Fs, d: nat, n: nat)
    requires Truncating(fs, fs, d, 0) && n <= d && n <= NDIR
    ensures Truncating(fs, fs, d, n)
  {
    hide Ptr, Index, FirstBelow, Inv, Trimmed;
    forall r | Leaf(fs, r) ensures SlotCutAt(fs, fs, d, n, r) {
      if r[0] < n {
        assert r[1..] == [];
        IndexSmall(fs.a, 0, 0, 0);
      }
    }
    forall r | Inner(fs, r) ensures SlotGoneAt(fs, d, n, r) { }
  }

  lemma {:induction false} SlotsGoneKept(fs1: Fs, fs2: Fs, d: nat, n: nat)
    requires SlotsGone(fs1, d, n) && Trimmed(fs1, fs2)
    ensures SlotsGone(fs2, d, n)
  {
    hide Ptr, Index, FirstBelow, Base, Reach;
    forall r | Inner(fs2, r) ensures SlotGoneAt(fs2, d, n, r) {
      assert Inner(fs1, r);
      assert SlotGoneAt(fs1, d, n, r);
      assert KeptOrCut(fs1, fs2, r);
    }
  }

  lemma {:induction false} DirectDone(fs0: Fs, fs1: Fs, d: nat, i: nat)
    requires Truncating(fs0, fs1, d, i) && i < NDIR && i >= d && PathOK(fs1, [i])
    ensures Truncating(fs0, if Ptr(fs1, [i]) == 0 then fs1 else Prune(fs1, [i]), d, i + 1)
  {
    hide Ptr, Inv, Trimmed, Outside, SlotsCut, SlotsGone, Reach, Prune, Base, Index;
    var fs2 := if Ptr(fs1, [i]) == 0 then fs1 else Prune(fs1, [i]);
    if Ptr(fs1, [i]) == 0 {
      TrimNothing(fs1);
      OutsideNothing(fs1, [i]);
    } else {
      LeafBare(fs1, [i]);
      PruneTrims(fs1, [i]);
    }
    SameShape(fs0, fs1);
    TrimTwice(fs0, fs1, fs2);
    SlotDirect(fs0, fs1, fs2, d, i);
    SlotsGoneKept(fs1, fs2, d, i);
    DirectHasNoInner(fs2, d, i);
  }

  lemma {:induction false} DirectHasNoInner(fs: Fs, d: nat, i: nat)
    requires SlotsGone(fs, d, i) && i < NDIR
    ensures SlotsGone(fs, d, i + 1)
  {
    hide Ptr, Index, FirstBelow, Base;
    forall r | Inner(fs, r) ensures SlotGoneAt(fs, d, i + 1, r) {
      assert SlotGoneAt(fs, d, i, r);
    }
  }

  lemma {:induction false} IndirectDone(fs0: Fs, fs1: Fs, fs2: Fs, d: nat, n: nat)
    requires Truncating(fs0, fs1, d, n) && NDIR <= n < NSLOTS
    requires Cut(fs1, fs2, [n], Depth(n), Base(fs1.a, n), d)
    ensures Truncating(fs0, fs2, d, n + 1)
  {
    hide Ptr, Inv, Trimmed, Outside, SlotsCut, SlotsGone, CutTo, Gone, Reach, Base, Index;
    SameShape(fs0, fs1);
    SameShape(fs1, fs2);
    TrimTwice(fs0, fs1, fs2);
    SlotIndirect(fs0, fs1, fs2, d, n);
    SlotsGoneKept(fs1, fs2, d, n);
    SlotGone(fs2, d, n);
  }

  lemma {:induction false} SlotGone(fs: Fs, d: nat, n: nat)
    requires SlotsGone(fs, d, n) && NDIR <= n < NSLOTS && Gone(fs, [n], Depth(n), Base(fs.a, n), d, fs.a)
    requires Base(fs.a, n) >= d ==> Ptr(fs, [n]) == 0
    ensures SlotsGone(fs, d, n + 1)
  {
    hide Ptr, Index, FirstBelow, Base;
    forall r | Inner(fs, r) ensures SlotGoneAt(fs, d, n + 1, r) {
      assert SlotGoneAt(fs, d, n, r);
      if r[0] == n {
        if |r| > 1 {
          assert [n] <= r;
          assert GoneAt(fs, [n], Depth(n), Base(fs.a, n), d, fs.a, r);
        } else {
          assert r == [n] && r[1..] == [];
          FirstBelowNone(fs.a, Depth(n));
        }
      }
    }
  }

  /** Truncating to nothing frees the whole tree. */
  lemma {:induction false} NothingLeft(fs0: Fs, fs: Fs)
    requires Truncating(fs0, fs, 0, NSLOTS)
    ensures Reach(fs) == {} && fs.iblocks == 0 && forall p :: PathOK(fs, p) ==> Ptr(fs, p) == 0
  {
    hide Ptr, Index, FirstBelow, Base;
    forall p | PathOK(fs, p) ensures Ptr(fs, p) == 0 {
      if IsLeaf(p) {
        assert Leaf(fs0, p);
        assert SlotCutAt(fs0, fs, 0, NSLOTS, p);
      } else {
        assert Inner(fs, p);
        assert SlotGoneAt(fs, 0, NSLOTS, p);
      }
    }
    assert Reach(fs) == {};
  }

  class Inode {
    var fs: Fs

    /** The block groups of the file system. */
    const groups: Ext2Alloc.Groups

    /** The blocks the tree counts as in use are those whose bits are set. */
    ghost predicate Tied()
      reads this, groups
    {
      groups.Valid() && fs.used == groups.Used(groups.bits)
    }

    constructor (fs: Fs, groups: Ext2Alloc.Groups)
      requires groups.Valid() && fs.used == groups.Used(groups.bits)
      ensures Tied() && this.fs == fs && this.groups == groups
    {
      this.fs, this.groups := fs, groups;
    }

    /** A block for position q of the tree (fs/ext2/inode.c:502-517, 567-583): a free one, whatever goal is set, which
        is zeroed and put in its place. 0 if there is none. */
    method Allocate(q: Path, suser: bool) returns (b: nat)
      requires Tied() && Inv(fs) && PathOK(fs, q) && (|q| > 1 ==> Ptr(fs, Parent(q)) != 0)
      modifies this`fs, groups
      ensures Tied() && (b == 0 || b !in old(fs).used)
      ensures fs == if b == 0 then old(fs) else Grow(old(fs), q, b)
      ensures b == 0 <==> old(groups.Room(suser)) == 0
      ensures groups.Room(suser) == old(groups.Room(suser)) - if b == 0 then 0 else 1
    {
      hide Inv, Ptr;
      groups.RoomIsLeft(suser);
      var goal := groups.AnyGoal();
      var beyond;
      b, beyond := groups.NewBlock(goal, suser);
      if b != 0 {
        fs := Grow(fs, q, b);
      }
    }

    /** Takes position p out of the tree and frees its block. */
    method Release(p: Path)
      requires Tied() && Inv(fs) && PathOK(fs, p) && Ptr(fs, p) != 0
      modifies this`fs, groups
      ensures Tied() && fs == Prune(old(fs), p)
    {
      assert NodeOK(fs, p);
      assert 0 !in fs.used;
      hide Inv, Ptr;
      var b := Ptr(fs, p);
      fs := Prune(fs, p);
      groups.FreeBlock(b);
    }

    /** inode_getblk (fs/ext2/inode.c:477-538). */
    method InodeGetblk(nr: nat, ask: Ask) returns (r: Got)
      requires Tied()
      requires Inv(fs) && nr < NSLOTS
      modifies this`fs, groups
      ensures Tied()
      ensures Reached(old(fs), fs, [nr], ask, r)
      ensures Paid(Holes(old(fs), [nr]), old(groups.Room(ask.suser)), groups.Room(ask.suser), r)
    {
      hide Inv, Grow, Reached;
      InvData(fs);
      PtrOne(fs, nr);
      HolesOne(fs, nr);
      hide Ptr;
      if fs.data[nr] != 0 {
        r := Block(fs.data[nr]);
      } else if !ask.create || ask.block >= ask.limit {
        r := Failed(EFBig);
      } else {
        var b := Allocate([nr], ask.suser);
        r := if b == 0 then Failed(ENoSpc) else Block(b);
      }
      FirstStep(old(fs), fs, nr, ask, r);
    }

    /** block_getblk (fs/ext2/inode.c:540-614) in the indirect block bh at position p.  The walk started
        in state fs0, with `room` blocks to be had. */
    method BlockGetblk(p: Path, bh: Got, nr: nat, ask: Ask, ghost fs0: Fs, ghost room: nat) returns (r: Got)
      requires Tied()
      requires Reached(fs0, fs, p, ask, bh) && p != [] && PathOK(fs0, p + [nr])
      requires Paid(Holes(fs0, p), room, groups.Room(ask.suser), bh)
      modifies this`fs, groups
      ensures Tied()
      ensures Reached(fs0, fs, p + [nr], ask, r)
      ensures Paid(Holes(fs0, p + [nr]), room, groups.Room(ask.suser), r)
    {
      hide Grow, Reach, Inv, Reached;
      ghost var fs1 := fs;
      ReachedFacts(fs0, fs, p, ask, bh);
      HolesMore(fs0, p, nr);
      if bh.Failed? {
        r := bh;
      } else {
        EntryOf(fs, p, nr);
        HoleBelow(fs0, fs, p, nr, ask, bh);
        hide Ptr;
        var tmp := fs.disk[bh.b][nr];
        if tmp != 0 {
          r := Block(tmp);
        } else if !ask.create || ask.block >= ask.limit {
          r := Failed(EFBig);
        } else {
          var b := Allocate(p + [nr], ask.suser);
          r := if b == 0 then Failed(ENoSpc) else Block(b);
        }
      }
      NextStep(fs0, fs1, fs, p, nr, ask, bh, r);
    }

    /** ext2_getblk (fs/ext2/inode.c:616-673).  A mapped block is found and nothing changes.  A missing one
        is made if asked for: then ext2_bmap finds it, and no other block of the file is mapped
        differently.  Blocks are taken only from outside the tree, and each is zeroed.  There is no space
        exactly when fewer blocks can be had than pointers are missing on the way.  For the one number the
        range check lets pass the code goes past the end of the triple indirect block, if there is one or
        one can be made. */
    method GetBlk(ask: Ask) returns (r: Got)
      requires Tied()
      requires Inv(fs)
      modifies this`fs, groups
      ensures Tied()
      ensures Inv(fs) && OnlyGrew(old(fs), fs)
      ensures r.Block? ==> Bmap(fs, ask.block) == r.b != 0 && r.b in fs.used
      ensures !r.Block? ==> Bmap(fs, ask.block) == 0
      ensures Bmap(old(fs), ask.block) != 0 ==> r == Block(Bmap(old(fs), ask.block)) && fs == old(fs)
      ensures r.Block? && Bmap(old(fs), ask.block) == 0 ==>
        ask.create && r.b !in old(fs).used && r.b in fs.disk && fs.disk[r.b] == Zeros(fs.a)
      ensures forall block: int :: block != ask.block ==> Bmap(fs, block) == Bmap(old(fs), block)
      ensures r == Failed(EIo) <==> ask.block < 0 || ask.block > Limit(fs.a)
      ensures r == Failed(EFBig) <==> old(Asked(ask)) && (!ask.create || ask.block >= ask.limit)
      ensures r == Failed(ENoSpc) <==>
        old(Asked(ask)) && ask.create && ask.block < ask.limit
        && Holes(old(fs), Way(old(fs).a, ask.block)) > old(groups.Room(ask.suser))
      ensures r == Beyond <==> ask.block == Limit(fs.a) && Ptr(fs, [TIND]) != 0
      ensures r == Failed(EFBig) || r == Failed(EIo) ==> fs == old(fs)
    {
      hide Inv, Ptr, Bmap, Reached, OnlyGrew, Limit, Holes, PathOf;
      if ask.block < 0 || ask.block > Limit(fs.a) {
        OutOfRange(fs, ask.block);
        return Failed(EIo);
      }
      InvData(fs);
      if ask.block < Limit(fs.a) {
        PathOfOK(fs, ask.block);
        BmapIsPtr(fs, ask.block);
        r := WalkTo(ask.block, ask);
        GotBlock(old(fs), fs, ask, r);
        Shapes(old(fs), fs);
      } else {
        r := PastEnd(ask);
        OutOfRange(old(fs), ask.block);
        OutOfRange(fs, ask.block);
      }
    }

    /** The pointer a request is for is missing. */
    ghost predicate Asked(ask: Ask)
      reads this`fs
      requires fs.a > 0
    {
      0 <= ask.block <= Limit(fs.a) && Ptr(fs, Way(fs.a, ask.block)) == 0
    }

    /** The walk for block number Limit, whose first index is past the end of the triple indirect block. */
    method PastEnd(ask: Ask) returns (r: Got)
      requires Tied()
      requires Inv(fs) && ask.block == Limit(fs.a)
      modifies this`fs, groups
      ensures Tied() && Inv(fs) && OnlyGrew(old(fs), fs) && fs.a == old(fs).a > 0
      ensures !r.Block? && r != Failed(EIo) && (r == Beyond <==> Ptr(fs, [TIND]) != 0)
      ensures r == Failed(EFBig) <==> Ptr(old(fs), [TIND]) == 0 && (!ask.create || ask.block >= ask.limit)
      ensures r == Failed(ENoSpc) <==>
        Ptr(old(fs), [TIND]) == 0 && ask.create && ask.block < ask.limit
        && Holes(old(fs), [TIND]) > old(groups.Room(ask.suser))
      ensures r == Failed(EFBig) ==> fs == old(fs)
      ensures forall block: int :: Bmap(fs, block) == Bmap(old(fs), block)
    {
      hide Inv, Ptr, Bmap, Reached, OnlyGrew, Pow, DivSquare;
      InvData(fs);
      var a := fs.a;
      r := InodeGetblk(TIND, ask);
      GotTriple(old(fs), fs, ask, r);
      HolesOne(old(fs), TIND);
      FirstIndexInRange(a, ask.block);
      if r.Block? && DivSquare(ask.block - NDIR - a - Pow(a, 2), a) >= a {
        r := Beyond;
      }
    }

    /** From the inode down to the block (fs/ext2/inode.c:648-672). */
    method WalkTo(block: nat, ask: Ask) returns (r: Got)
      requires Tied()
      requires Inv(fs) && fs.a > 0 && block < Limit(fs.a)
      modifies this`fs, groups
      ensures Tied()
      ensures Reached(old(fs), fs, PathOf(old(fs).a, block), ask, r)
      ensures Paid(Holes(old(fs), PathOf(old(fs).a, block)), old(groups.Room(ask.suser)), groups.Room(ask.suser), r)
    {
      hide Inv, Ptr, Pow, Div, Rem, Reached, DivSquare, Holes, Paid;
      ghost var fs0, room := fs, groups.Room(ask.suser);
      var a := fs.a;
      PathOfOK(fs, block);
      ghost var q := PathOf(a, block);
      if block < NDIR {
        r := InodeGetblk(block, ask);
      } else if block - NDIR < a {
        Prefixes(fs0, q);
        var bh := InodeGetblk(IND, ask);
        r := BlockGetblk([IND], bh, block - NDIR, ask, fs0, room);
      } else if block - NDIR - a < Pow(a, 2) {
        Prefixes(fs0, q);
        var b := block - NDIR - a;
        var bh := InodeGetblk(DIND, ask);
        bh := BlockGetblk([DIND], bh, Div(b, a), ask, fs0, room);
        r := BlockGetblk([DIND] + [Div(b, a)], bh, Rem(b, a), ask, fs0, room);
      } else {
        Prefixes(fs0, q);
        var b := block - NDIR - a - Pow(a, 2);
        var i, j := DivSquare(b, a), Rem(Div(b, a), a);
        var bh := InodeGetblk(TIND, ask);
        bh := BlockGetblk([TIND], bh, i, ask, fs0, room);
        bh := BlockGetblk([TIND] + [i], bh, j, ask, fs0, room);
        r := BlockGetblk([TIND] + [i] + [j], bh, Rem(b, a), ask, fs0, room);
      }
    }

    /** Nothing but zeros in an indirect block (fs/ext2/truncate.c:121-124). */
    method IsEmpty(p: Path, b: nat) returns (empty: bool)
      requires Inv(fs) && PathOK(fs, p) && b == Ptr(fs, p) != 0
      ensures empty <==> AllZero(fs, p)
    {
      hide Ptr, Reach;
      assert NodeOK(fs, p);
      var i := 0;
      while i < fs.a
        invariant i <= fs.a
        invariant forall j {:trigger Ptr(fs, p + [j])} :: 0 <= j < i ==> Ptr(fs, p + [j]) == 0
      {
        PtrMore(fs, p, i);
        if fs.disk[b][i] != 0 {
          return false;
        }
        i := i + 1;
      }
      return true;
    }

    /** trunc_direct (fs/ext2/truncate.c:33-67). */
    method TruncDirect(d: nat)
      requires Tied()
      requires Inv(fs)
      modifies this`fs, groups
      ensures Tied()
      ensures Truncating(old(fs), fs, d, NDIR)
    {
      hide Ptr, Inv, Truncating, Prune;
      var i := d;
      SlotsStart(fs, d);
      SlotsSkip(fs, d, if d < NDIR then d else NDIR);
      while i < NDIR
        invariant Tied()
        invariant d <= i && (i <= NDIR || i == d)
        invariant Truncating(old(fs), fs, d, if i < NDIR then i else NDIR)
      {
        SlotOK(old(fs), fs, d, i, i);
        DirectDone(old(fs), fs, d, i);
        if fs.data[i] != 0 {
          Release([i]);
        }
        i := i + 1;
      }
    }

    /** trunc_indirect (fs/ext2/truncate.c:69-137). */
    method TruncIndirect(p: Path, off: nat, d: nat)
      requires Tied()
      requires Inv(fs) && Level(fs, p, 1)
      modifies this`fs, groups
      ensures Tied()
      ensures Cut(old(fs), fs, p, 1, off, d)
    {
      hide Ptr, Inv, Cut, Cutting, Prune, AllZero, Pow;
      var b := Ptr(fs, p);
      if b == 0 {
        CutHoleAll(fs, p, 1, off, d);
        return;
      }
      CutBegin(fs, p, 1, off, d);
      PowZero(fs.a);
      var i := Start(d, off, 1);
      while i < fs.a
        invariant Tied()
        invariant i >= Start(d, off, 1) && Cutting(old(fs), fs, p, 1, off, d, i)
        invariant fs.a == old(fs).a
      {
        EntryAt(old(fs), fs, p, 1, off, d, i, b);
        StartReached(d, off, i);
        CutDataChild(old(fs), fs, p, off, d, i);
        if fs.disk[b][i] != 0 {
          Release(p + [i]);
        }
        EntryShape(old(fs), fs, p, 1, off, d, i + 1);
        i := i + 1;
      }
      EntryShape(old(fs), fs, p, 1, off, d, i);
      CutEnd(old(fs), fs, p, 1, off, d, i);
      var empty := IsEmpty(p, b);
      if empty {
        Release(p);
      }
    }

    /** trunc_dindirect and trunc_tindirect (fs/ext2/truncate.c:139-250), for h levels of indirect blocks. */
    method TruncDeeper(p: Path, h: nat, off: nat, d: nat)
      requires Tied()
      requires Inv(fs) && Level(fs, p, h) && h >= 2
      modifies this`fs, groups
      ensures Tied()
      ensures Cut(old(fs), fs, p, h, off, d)
      decreases h
    {
      hide Ptr, Inv, Cut, Cutting, Prune, AllZero, Pow, Scale;
      var b := Ptr(fs, p);
      if b == 0 {
        CutHoleAll(fs, p, h, off, d);
        return;
      }
      CutBegin(fs, p, h, off, d);
      var stride := Pow(fs.a, h - 1);
      var i: nat := Start(d, off, stride);
      while i < fs.a
        invariant Tied()
        invariant Cutting(old(fs), fs, p, h, off, d, i) && fs.a == old(fs).a
      {
        EntryAt(old(fs), fs, p, h, off, d, i, b);
        ghost var fs1 := fs;
        if fs.disk[b][i] == 0 {
          CutHoleAll(fs, p + [i], h - 1, off + Scale(i, stride), d);
        } else if h == 2 {
          TruncIndirect(p + [i], off + Scale(i, stride), d);
        } else {
          TruncDeeper(p + [i], h - 1, off + Scale(i, stride), d);
        }
        CutChild(old(fs), fs1, fs, p, h, off, d, i);
        EntryShape(old(fs), fs, p, h, off, d, i + 1);
        i := i + 1;
      }
      EntryShape(old(fs), fs, p, h, off, d, i);
      CutEnd(old(fs), fs, p, h, off, d, i);
      var empty := IsEmpty(p, b);
      if empty {
        Release(p);
      }
    }

    /** ext2_truncate (fs/ext2/truncate.c:252-274) of a file, directory or symbolic link to `size` bytes:
        blocks from ceil(size / blocksize) on are unmapped and the others are as before; exactly the
        blocks that left the tree are freed, and i_blocks still counts those that stay. */
    method Truncate(size: nat, blocksize: nat, truncatable: bool)
      requires Tied()
      requires Inv(fs) && blocksize > 0
      modifies this`fs, groups
      ensures Tied()
      ensures Inv(fs) && (!truncatable ==> fs == old(fs))
      ensures truncatable ==> Trimmed(old(fs), fs)
      ensures truncatable ==> forall block: int ::
        Bmap(fs, block) == if block >= (size + blocksize - 1) / blocksize then 0 else Bmap(old(fs), block)
      ensures truncatable ==> SlotsGone(fs, (size + blocksize - 1) / blocksize, NSLOTS)
      ensures truncatable && size == 0 ==> Reach(fs) == {} && fs.iblocks == 0
    {
      hide Ptr, Inv, Truncating, Cut, Trimmed, SlotsGone, Pow, Base;
      if !truncatable {
        return;
      }
      var d := (size + blocksize - 1) / blocksize;
      ghost var fs0 := fs;
      TruncDirect(d);
      TruncFacts(fs0, fs, d, NDIR);
      ghost var fs1 := fs;
      TruncIndirect([IND], NDIR, d);
      BaseIs(fs1.a);
      IndirectDone(fs0, fs1, fs, d, IND);
      TruncFacts(fs0, fs, d, DIND);
      ghost var fs2 := fs;
      TruncDeeper([DIND], 2, NDIR + fs.a, d);
      IndirectDone(fs0, fs2, fs, d, DIND);
      TruncFacts(fs0, fs, d, TIND);
      ghost var fs3 := fs;
      TruncDeeper([TIND], 3, NDIR + fs.a + Pow(fs.a, 2), d);
      IndirectDone(fs0, fs3, fs, d, TIND);
      TruncResult(fs0, fs, d);
      if size == 0 {
        NoBlocks(blocksize);
        NothingLeft(fs0, fs);
      }
    }
  }

  /** Where a request leads: to a data block, or at most to the triple indirect block. */
  ghost function Way(a: nat, block: nat): Path
    requires a > 0 && block <= Limit(a)
  {
    if block == Limit(a) then [TIND] else PathOf(a, block)
  }

  /** What is missing below a position of the walk was missing before. */
  lemma HoleBelow(fs0: Fs, fs: Fs, p: Path, nr: nat, ask: Ask, r: Got)
    requires Reached(fs0, fs, p, ask, r) && PathOK(fs0, p + [nr])
    ensures Ptr(fs, p + [nr]) == Ptr(fs0, p + [nr])
  {
    hide Ptr, Inv, OnlyGrew;
    StillHole(fs0, fs, p, p + [nr]);
  }

  /** Every part of a path is a path. */
  lemma Prefixes(fs: Fs, q: Path)
    requires PathOK(fs, q)
    ensures |q| == 2 ==> q == [q[0]] + [q[1]]
    ensures |q| == 3 ==> q == [q[0]] + [q[1]] + [q[2]] && PathOK(fs, [q[0]] + [q[1]])
    ensures |q| == 4 ==>
      q == [q[0]] + [q[1]] + [q[2]] + [q[3]] && PathOK(fs, [q[0]] + [q[1]])
      && PathOK(fs, [q[0]] + [q[1]] + [q[2]])
  {
  }

  lemma EntryOf(fs: Fs, p: Path, i: nat)
    requires Inv(fs) && p != [] && PathOK(fs, p + [i]) && Ptr(fs, p) != 0
    ensures Ptr(fs, p) in fs.disk && i < |fs.disk[Ptr(fs, p)]| && fs.disk[Ptr(fs, p)][i] == Ptr(fs, p + [i])
    ensures Parent(p + [i]) == p
  {
    hide Reach;
    assert Parent(p + [i]) == p && (p + [i])[|p|] == i;
    ParentOK(fs, p + [i]);
    assert NodeOK(fs, p);
    PtrMore(fs, p, i);
  }

  lemma InvData(fs: Fs)
    requires Inv(fs)
    ensures |fs.data| == NSLOTS && fs.a > 0 && 0 !in fs.used
  {
  }

  lemma NoBlocks(blocksize: nat)
    requires blocksize > 0
    ensures (0 + blocksize - 1) / blocksize == 0
  {
  }

  lemma BaseIs(a: nat)
    ensures Base(a, IND) == NDIR && Base(a, DIND) == NDIR + a && Base(a, TIND) == NDIR + a + Pow(a, 2)
  {
  }

  lemma TruncFacts(fs0: Fs, fs: Fs, d: nat, n: nat)
    requires Truncating(fs0, fs, d, n) && NDIR <= n < NSLOTS
    ensures Inv(fs) && Level(fs, [n], Depth(n)) && fs.a == fs0.a
  {
    hide Ptr;
  }

  lemma {:induction false} TruncResult(fs0: Fs, fs: Fs, d: nat)
    requires Inv(fs0) && Truncating(fs0, fs, d, NSLOTS)
    ensures Inv(fs) && Trimmed(fs0, fs) && SlotsGone(fs, d, NSLOTS)
    ensures forall block: int :: Bmap(fs, block) == if block >= d then 0 else Bmap(fs0, block)
  {
    hide Ptr, Trimmed, SlotsGone, SlotsCut, Bmap;
    SameShape(fs0, fs);
    forall block: int
      ensures Bmap(fs, block) == if block >= d then 0 else Bmap(fs0, block)
    {
      SlotsBmap(fs0, fs, d, block);
    }
  }

  lemma SlotOK(fs0: Fs, fs: Fs, d: nat, n: nat, i: nat)
    requires Truncating(fs0, fs, d, n) && i < NDIR
    ensures Inv(fs) && PathOK(fs, [i]) && |fs.data| == NSLOTS && Ptr(fs, [i]) == fs.data[i]
  {
    PtrOne(fs, i);
  }

  lemma PowZero(a: nat)
    ensures Pow(a, 0) == 1
  {
  }

  lemma {:induction false} EntryShape(fs0: Fs, fs: Fs, p: Path, h: nat, off: nat, d: nat, i: nat)
    requires Cutting(fs0, fs, p, h, off, d, i)
    ensures Inv(fs) && fs.a == fs0.a && PathOK(fs, p) && Ptr(fs, p) == Ptr(fs0, p) != 0 && Level(fs, p, h)
  {
    hide Ptr, Reach;
  }

  /** The entry the loop looks at. */
  lemma {:induction false} EntryAt(fs0: Fs, fs: Fs, p: Path, h: nat, off: nat, d: nat, i: nat, b: nat)
    requires Cutting(fs0, fs, p, h, off, d, i) && h >= 1 && i < fs.a && b == Ptr(fs0, p)
    ensures Inv(fs) && PathOK(fs, p + [i]) && b in fs.disk && i < |fs.disk[b]| && fs.disk[b][i] == Ptr(fs, p + [i])
    ensures Level(fs, p + [i], h - 1)
  {
    hide Ptr, Reach, CutTo, Gone, Trimmed, Outside;
    EntryShape(fs0, fs, p, h, off, d, i);
    assert NodeOK(fs, p);
    PtrMore(fs, p, i);
  }
}
