/** What one call of the truncation code does to the tree below a pointer (fs/ext2/truncate.c:33-249). */
module Ext2Trim {
  import opened Ext2Tree
  import opened Ext2Blocks

  ghost predicate KeptOrCut(fs: Fs, fs': Fs, p: Path) {
    Ptr(fs', p) == Ptr(fs, p) || Ptr(fs', p) == 0
  }

  /** Pointers were only cleared, and exactly the blocks that left the tree were freed. */
  ghost predicate Trimmed(fs: Fs, fs': Fs) {
    && fs'.a == fs.a && fs'.units == fs.units && |fs'.data| == |fs.data|
    && (forall p {:trigger KeptOrCut(fs, fs', p)} :: PathOK(fs, p) ==> KeptOrCut(fs, fs', p))
    && Reach(fs') <= Reach(fs)
    && fs'.used == fs.used - (Reach(fs) - Reach(fs'))
  }

  ghost predicate Same(fs: Fs, fs': Fs, q: Path) {
    Ptr(fs', q) == Ptr(fs, q)
  }

  /** Nothing changed except at and below p. */
  ghost predicate Outside(fs: Fs, fs': Fs, p: Path) {
    forall q {:trigger Same(fs, fs', q)} :: PathOK(fs, q) && !(p <= q) ==> Same(fs, fs', q)
  }

  ghost predicate Leaf(fs: Fs, r: Path) {
    PathOK(fs, r) && IsLeaf(r)
  }

  /** The data block at r, numbered off plus its position below p, is cut if its number is d or more
      and its index under p is below n. */
  ghost predicate CutAt(fs: Fs, fs': Fs, p: Path, off: nat, d: nat, n: nat, r: Path)
    requires |p| < |r|
  {
    Ptr(fs', r) == if r[|p|] < n && off + Index(fs.a, r[|p|..]) >= d then 0 else Ptr(fs, r)
  }

  ghost predicate CutTo(fs: Fs, fs': Fs, p: Path, off: nat, d: nat, n: nat) {
    forall r {:trigger Leaf(fs, r)} :: Leaf(fs, r) && p <= r && |p| < |r| ==> CutAt(fs, fs', p, off, d, n, r)
  }

  /** The subtree of p holds h levels of indirect blocks, p's own included. */
  ghost predicate Level(fs: Fs, p: Path, h: nat) {
    PathOK(fs, p) && |p| - 1 + h == Depth(p[0])
  }

  /** The first index to look at (`(DIRECT_BLOCK - offset) / stride`, negative values count as 0). */
  function Start(d: nat, off: nat, s: nat): nat
    requires s > 0
  {
    if d > off then Div(d - off, s) else 0
  }

  lemma TrimNothing(fs: Fs)
    ensures Trimmed(fs, fs)
  {
    hide Ptr, Reach;
  }

  lemma TrimTwice(fs: Fs, fs1: Fs, fs2: Fs)
    requires Trimmed(fs, fs1) && Trimmed(fs1, fs2)
    ensures Trimmed(fs, fs2)
  {
    hide Ptr, Reach;
    forall p | PathOK(fs, p) ensures KeptOrCut(fs, fs2, p) {
      assert PathOK(fs1, p);
      assert KeptOrCut(fs, fs1, p) && KeptOrCut(fs1, fs2, p);
    }
    ReachUsed(fs);
    assert fs2.used == fs.used - (Reach(fs) - Reach(fs2));
  }

  lemma ReachUsed(fs: Fs)
    ensures Reach(fs) <= fs.used
  {
  }

  lemma OutsideTwice(fs: Fs, fs1: Fs, fs2: Fs, p: Path, q: Path)
    requires Outside(fs, fs1, p) && Outside(fs1, fs2, q) && p <= q && fs1.a == fs.a
    ensures Outside(fs, fs2, p)
  {
    hide Ptr;
    forall r | PathOK(fs, r) && !(p <= r) ensures Same(fs, fs2, r) {
      if q <= r { Longer(p, q, r); }
      assert PathOK(fs1, r);
      assert Same(fs, fs1, r) && Same(fs1, fs2, r);
    }
  }

  lemma Longer(p: Path, q: Path, r: Path)
    requires p <= q && q <= r
    ensures p <= r
  {
  }

  lemma PruneTrims(fs: Fs, q: Path)
    requires Inv(fs) && PathOK(fs, q) && Ptr(fs, q) != 0 && Bare(fs, q)
    ensures Inv(Prune(fs, q)) && Trimmed(fs, Prune(fs, q)) && OnlyAt(fs, Prune(fs, q), q) && Ptr(Prune(fs, q), q) == 0
    ensures Outside(fs, Prune(fs, q), q)
  {
    hide Ptr, Reach, Inv, Prune, Bare;
    var fs' := Prune(fs, q);
    PruneOK(fs, q);
    forall p | PathOK(fs, p) ensures KeptOrCut(fs, fs', p) {
      if p != q { assert Ptr(fs', p) == Ptr(fs, p); }
    }
    forall p | PathOK(fs, p) && !(q <= p) ensures Same(fs, fs', p) {
      assert p != q;
      assert Ptr(fs', p) == Ptr(fs, p);
    }
    InReach(fs, q);
    assert fs'.used == fs.used - (Reach(fs) - Reach(fs'));
  }

  lemma InReach(fs: Fs, q: Path)
    requires Inv(fs) && PathOK(fs, q) && Ptr(fs, q) != 0
    ensures Ptr(fs, q) in Reach(fs) && Ptr(fs, q) in fs.used
  {
    hide Ptr;
    assert NodeOK(fs, q);
  }

  /** Data blocks have nothing below them. */
  lemma LeafBare(fs: Fs, q: Path)
    requires Leaf(fs, q)
    ensures Bare(fs, q)
  {
    hide Ptr;
  }

  /** An indirect block without a nonzero entry has nothing below it. */
  lemma EmptyBare(fs: Fs, q: Path)
    requires PathOK(fs, q) && forall i {:trigger Ptr(fs, q + [i])} :: 0 <= i < fs.a ==> Ptr(fs, q + [i]) == 0
    ensures Bare(fs, q)
  {
    hide Ptr;
    forall p | PathOK(fs, p) && q <= p && p != q ensures Ptr(fs, p) == 0 {
      assert |p| > |q|;
      var i := p[|q|];
      assert q + [i] <= p;
      BelowHole(fs, p, q + [i]);
    }
  }

  // ---- one entry of an indirect block ----

  /** The path of a leaf below p, seen from its child. */
  lemma {:induction false} Child(fs: Fs, p: Path, r: Path)
    requires Leaf(fs, r) && p <= r && |p| < |r|
    ensures r[|p|] < fs.a || p == []
    ensures p + [r[|p|]] <= r
    ensures Index(fs.a, r[|p|..]) == Scale(r[|p|], Pow(fs.a, |r| - |p| - 1)) + Index(fs.a, r[|p| + 1..])
  {
    hide *;
    ChildPath(fs, p, r);
    IndexAt(fs.a, r, |p|);
  }

  lemma {:induction false} IndexAt(a: nat, r: Path, n: nat)
    requires n < |r|
    ensures Index(a, r[n..]) == Scale(r[n], Pow(a, |r| - n - 1)) + Index(a, r[n + 1..])
  {
    hide *;
    var t := r[n + 1..];
    assert r[n..] == [r[n]] + t;
    IndexMore(a, r[n], t);
  }

  lemma ChildPath(fs: Fs, p: Path, r: Path)
    requires Leaf(fs, r) && p <= r && |p| < |r|
    ensures r[|p|] < fs.a || p == []
    ensures p + [r[|p|]] <= r
  {
    hide Ptr;
  }

  /** Before the starting index nothing is cut. */
  lemma StartCuts(fs: Fs, p: Path, h: nat, off: nat, d: nat)
    requires fs.a > 0 && Level(fs, p, h) && h >= 1 && Pow(fs.a, h - 1) > 0
    ensures CutTo(fs, fs, p, off, d, Start(d, off, Pow(fs.a, h - 1)))
  {
    hide Ptr, Scale, Pow, Div, Index;
    var s := Pow(fs.a, h - 1);
    var n := Start(d, off, s);
    forall r | Leaf(fs, r) && p <= r && |p| < |r| ensures CutAt(fs, fs, p, off, d, n, r) {
      assert |r| - |p| - 1 == h - 1;
      Child(fs, p, r);
      TailSmall(fs, r, |p| + 1);
      if r[|p|] < n { StrideFits(d - off, s, r[|p|]); }
    }
  }

  lemma TailSmall(fs: Fs, r: Path, k: nat)
    requires fs.a > 0 && PathOK(fs, r) && 1 <= k <= |r|
    ensures Index(fs.a, r[k..]) < Pow(fs.a, |r| - k)
  {
    hide Scale, Pow, Index;
    IndexBelow(fs.a, r[k..]);
  }

  /** From the starting index on, a data block right below p is to be cut. */
  lemma StartReached(d: nat, off: nat, i: nat)
    requires i >= Start(d, off, 1)
    ensures off + i >= d
  {
  }

  /** Cutting below the i-th child, after the children before it, cuts below the first i + 1. */
  lemma CutNext(fs: Fs, fs1: Fs, fs2: Fs, p: Path, h: nat, off: nat, d: nat, i: nat)
    requires Level(fs, p, h) && h >= 2 && i < fs.a && fs1.a == fs.a
    requires CutTo(fs, fs1, p, off, d, i)
    requires CutTo(fs1, fs2, p + [i], off + Scale(i, Pow(fs.a, h - 1)), d, fs.a)
    requires Outside(fs1, fs2, p + [i])
    ensures CutTo(fs, fs2, p, off, d, i + 1)
  {
    hide Ptr, Scale, Pow, Index;
    var q := p + [i];
    forall r | Leaf(fs, r) && p <= r && |p| < |r| ensures CutAt(fs, fs2, p, off, d, i + 1, r) {
      Child(fs, p, r);
      assert Leaf(fs1, r);
      assert |r| == |p| + h;
      if r[|p|] == i {
        Child(fs1, q, r);
        assert CutAt(fs1, fs2, q, off + Scale(i, Pow(fs.a, h - 1)), d, fs.a, r);
        assert CutAt(fs, fs1, p, off, d, i, r);
      } else {
        assert !(q <= r) by { assert q[|p|] != r[|p|]; }
        assert Same(fs1, fs2, r);
      }
    }
  }

  /** The same when the children are data blocks. */
  lemma CutLeaf(fs: Fs, fs1: Fs, fs2: Fs, p: Path, off: nat, d: nat, i: nat)
    requires Level(fs, p, 1) && i < fs.a && fs1.a == fs.a && off + i >= d
    requires CutTo(fs, fs1, p, off, d, i)
    requires Outside(fs1, fs2, p + [i]) && Ptr(fs2, p + [i]) == 0
    ensures CutTo(fs, fs2, p, off, d, i + 1)
  {
    hide Ptr, Scale, Pow, Index;
    var q := p + [i];
    forall r | Leaf(fs, r) && p <= r && |p| < |r| ensures CutAt(fs, fs2, p, off, d, i + 1, r) {
      assert Leaf(fs1, r);
      assert |r| == |p| + 1;
      if r[|p|] == i {
        assert r == q;
        assert r[|p|..] == [i];
        IndexSmall(fs.a, i, 0, 0);
      } else {
        assert !(q <= r) by { assert q[|p|] != r[|p|]; }
        assert Same(fs1, fs2, r);
        assert CutAt(fs, fs1, p, off, d, i, r);
      }
    }
  }

  /** Freeing the indirect block itself changes no data block. */
  lemma CutPruned(fs: Fs, fs1: Fs, fs2: Fs, p: Path, off: nat, d: nat, n: nat)
    requires CutTo(fs, fs1, p, off, d, n) && OnlyAt(fs1, fs2, p) && fs1.a == fs.a
    ensures CutTo(fs, fs2, p, off, d, n)
  {
    hide Ptr, Scale, Pow, Index;
    forall r | Leaf(fs, r) && p <= r && |p| < |r| ensures CutAt(fs, fs2, p, off, d, n, r) {
      assert CutAt(fs, fs1, p, off, d, n, r);
      assert PathOK(fs1, r);
      assert Ptr(fs2, r) == Ptr(fs1, r);
    }
  }

  /** All the children of an indirect block are below its length. */
  lemma CutAll(fs: Fs, fs': Fs, p: Path, off: nat, d: nat, n: nat)
    requires CutTo(fs, fs', p, off, d, n) && n >= fs.a && p != []
    ensures CutTo(fs, fs', p, off, d, fs.a)
  {
    hide Ptr, Scale, Pow, Index;
    forall r | Leaf(fs, r) && p <= r && |p| < |r| ensures CutAt(fs, fs', p, off, d, fs.a, r) {
      assert CutAt(fs, fs', p, off, d, n, r);
    }
  }

  /** Below a hole there is nothing to cut. */
  lemma CutHole(fs: Fs, p: Path, off: nat, d: nat, n: nat)
    requires p != [] && Ptr(fs, p) == 0
    ensures CutTo(fs, fs, p, off, d, n)
  {
    hide Ptr, Scale, Pow, Index;
    forall r | Leaf(fs, r) && p <= r && |p| < |r| ensures CutAt(fs, fs, p, off, d, n, r) {
      BelowHole(fs, r, p);
    }
  }

  // ---- the whole inode ----

  ghost predicate SlotCutAt(fs: Fs, fs': Fs, d: nat, n: nat, r: Path)
    requires r != []
  {
    Ptr(fs', r) == if r[0] < n && Base(fs.a, r[0]) + Index(fs.a, r[1..]) >= d then 0 else Ptr(fs, r)
  }

  /** The first n slots of the inode are cut at block d. */
  ghost predicate SlotsCut(fs: Fs, fs': Fs, d: nat, n: nat) {
    forall r {:trigger Leaf(fs, r)} :: Leaf(fs, r) ==> SlotCutAt(fs, fs', d, n, r)
  }

  lemma SlotDirect(fs: Fs, fs1: Fs, fs2: Fs, d: nat, i: nat)
    requires SlotsCut(fs, fs1, d, i) && i < NDIR && fs1.a == fs.a
    requires if i >= d then Outside(fs1, fs2, [i]) && Ptr(fs2, [i]) == 0 else fs2 == fs1
    ensures SlotsCut(fs, fs2, d, i + 1)
  {
    hide Ptr, Index;
    forall r | Leaf(fs, r) ensures SlotCutAt(fs, fs2, d, i + 1, r) {
      assert Leaf(fs1, r);
      assert SlotCutAt(fs, fs1, d, i, r);
      if r[0] == i {
        assert r == [i];
        assert r[1..] == [];
        IndexSmall(fs.a, 0, 0, 0);
      } else {
        assert !([i] <= r);
        if i >= d { assert Same(fs1, fs2, r); }
      }
    }
  }

  lemma SlotIndirect(fs: Fs, fs1: Fs, fs2: Fs, d: nat, n: nat)
    requires SlotsCut(fs, fs1, d, n) && NDIR <= n < NSLOTS && fs1.a == fs.a
    requires Outside(fs1, fs2, [n]) && CutTo(fs1, fs2, [n], Base(fs.a, n), d, fs.a)
    ensures SlotsCut(fs, fs2, d, n + 1)
  {
    hide Ptr, Index, Pow;
    forall r | Leaf(fs, r) ensures SlotCutAt(fs, fs2, d, n + 1, r) {
      assert Leaf(fs1, r);
      assert SlotCutAt(fs, fs1, d, n, r);
      if r[0] == n {
        assert [n] <= r && |r| > 1;
        assert CutAt(fs1, fs2, [n], Base(fs.a, n), d, fs.a, r);
      } else {
        assert !([n] <= r);
        assert Same(fs1, fs2, r);
      }
    }
  }

  /** All slots cut at d: the file maps no block from d on, and maps the blocks before as it did. */
  lemma SlotsBmap(fs: Fs, fs': Fs, d: nat, block: int)
    requires Inv(fs) && Inv(fs') && fs'.a == fs.a && SlotsCut(fs, fs', d, NSLOTS)
    ensures Bmap(fs', block) == if block >= d then 0 else Bmap(fs, block)
  {
    hide Ptr, Index, Pow, Base, PathOf;
    if 0 <= block < Limit(fs.a) {
      hide Limit, Bmap;
      BmapIsPtr(fs, block);
      BmapIsPtr(fs', block);
      PathOfOK(fs, block);
      BlockNumber(fs.a, block);
      var p := PathOf(fs.a, block);
      assert Leaf(fs, p);
      assert SlotCutAt(fs, fs', d, NSLOTS, p);
    }
  }
}
